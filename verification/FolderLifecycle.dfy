/** The rounds of a node once more, down to the bytes in its voting key folder. */
module FolderLifecycle {
  import opened VotingKeys
  import opened AccountChain
  import opened LinkPlanner
  import opened VotingSchedule
  import opened Lifecycle
  import Service = VotingService

  /** One round: an updating run on the folder, then a link plan on a listing of the linked keys. */
  datatype FolderRound = FolderRound(run: Service.RunInput, listing: seq<VotingKey>, answers: Answers)

  function RoundOf(r: FolderRound): Round {
    Round(r.run.Epoch(), r.run.ctx.settings, Service.RootKey(r.run.ctx), r.listing, r.answers)
  }

  function Rounds(rs: seq<FolderRound>): seq<Round> {
    seq(|rs|, i requires 0 <= i < |rs| => RoundOf(rs[i]))
  }

  function Runs(rs: seq<FolderRound>): seq<Service.RunInput> {
    seq(|rs|, i requires 0 <= i < |rs| => rs[i].run)
  }

  ghost predicate AllUpdating(rs: seq<FolderRound>) {
    forall i | 0 <= i < |rs| :: Service.Updating(rs[i].run.ctx, rs[i].run.update)
  }

  /** The keys the rounds speak about are the keys the runs create. */
  lemma {:induction false} RoundsCreateRunKeys(rs: seq<FolderRound>)
    requires AllUpdating(rs)
    ensures FilesAfter(Rounds(rs)) == Service.KeysAfter(Runs(rs))
  {
    hide RunOnce, Service.RootKey, Service.NetworkEpoch;
    if |rs| != 0 {
      var init, last := rs[..|rs| - 1], rs[|rs| - 1];
      RoundsCreateRunKeys(init);
      assert Rounds(rs)[..|rs| - 1] == Rounds(init) && Runs(rs)[..|rs| - 1] == Runs(init);
      assert Rounds(rs)[|rs| - 1] == RoundOf(last) && Runs(rs)[|rs| - 1] == last.run;
    }
  }

  /** From an empty folder and an account without keys: after every round the folder can be read, in
      whatever order the system lists it, and the linked voting keys are exactly the first three unexpired
      keys read from its files; one of them covers the present epoch. */
  lemma {:induction false} FolderKeysAreLinked(rs: seq<FolderRound>, names: seq<string>)
    requires |rs| > 0 && AllUpdating(rs) && Service.Valid(Runs(rs)) && Valid(Rounds(rs))
    requires Service.Enumerates(names, Service.FolderAfter(Runs(rs)).Keys)
    ensures var loaded := Service.LoadVotingFiles(Service.FolderAfter(Runs(rs)), names);
      var account := AccountAfter(Rounds(rs));
      var epoch := rs[|rs| - 1].run.Epoch();
      && loaded.Ok? && account.Some?
      && account.value.voting == KeySet(FirstThree(Active(Service.KeysOf(loaded.value), epoch)))
      && exists k :: k in account.value.voting && Covers(k, epoch)
  {
    hide KeySet, FirstThree, Active, AccountAfter, FilesAfter, Valid, Covers;
    hide Service.KeysAfter, Service.FolderAfter, Service.LoadVotingFiles, Service.Holds, Service.Valid;
    var keys := Service.KeysAfter(Runs(rs));
    Service.RunsHold(Runs(rs));
    Service.LoadHeld(Service.FolderAfter(Runs(rs)), keys, names);
    Service.FilesCount(keys);
    RoundsCreateRunKeys(rs);
    RoundsLinkFirstThree(Rounds(rs));
    PresentEpochIsLinked(Rounds(rs));
    assert Rounds(rs)[|rs| - 1] == RoundOf(rs[|rs| - 1]);
  }
}
