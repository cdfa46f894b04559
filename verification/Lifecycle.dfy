/** The life of voting keys on a node: rounds of an updating run followed by a confirmed link plan. */
module Lifecycle {
  import opened Basics
  import opened VotingKeys
  import opened AccountChain
  import opened LinkPlanner
  import opened LinkPlanLaws
  import opened LinkRoundTrips
  import opened VotingSchedule

  /** One round: its epoch, the file settings, the public key drawn for a new file, the linked keys as
      the chain lists them, and the answers given. */
  datatype Round = Round(epoch: int, settings: Settings, publicKey: string, listing: seq<VotingKey>, answers: Answers)

  function FilesAfter(rounds: seq<Round>): seq<VotingKey> {
    if |rounds| == 0 then []
    else
      var last := rounds[|rounds| - 1];
      RunOnce(FilesAfter(rounds[..|rounds| - 1]), last.epoch, true, last.settings, last.publicKey)
  }

  /** The account after the announced transactions of every round; `None` when the chain refused one. */
  ghost function AccountAfter(rounds: seq<Round>): Option<AccountKeys> {
    if |rounds| == 0 then Some(AccountKeys(None, None, {}))
    else
      var last := rounds[|rounds| - 1];
      match AccountAfter(rounds[..|rounds| - 1])
      case None => None
      case Some(account) =>
        ApplyAll(account, UnlinksFirst(LinkPlan(last.listing, FilesAfter(rounds), last.epoch,
                                                last.answers).transactions))
  }

  /** From nothing: epochs from 1 on that never go back, sound settings, every unlink confirmed, and each
      round planned on a listing of the keys then linked. */
  ghost predicate Valid(rounds: seq<Round>) {
    |rounds| > 0 ==>
      var init, last := rounds[..|rounds| - 1], rounds[|rounds| - 1];
      && Valid(init)
      && 1 <= last.epoch && (|init| > 0 ==> init[|init| - 1].epoch <= last.epoch)
      && 1 <= last.settings.lifetime && last.settings.futureLifetime <= last.settings.lifetime
      && AllConfirmed(last.answers)
      && (AccountAfter(init).Some? ==> Lists(last.listing, AccountAfter(init).value.voting))
  }

  function FirstThree(keys: seq<VotingKey>): seq<VotingKey> {
    if |keys| <= MAX_VOTING_KEYS then keys else keys[..MAX_VOTING_KEYS]
  }

  // ----- active files of a growing, ageing folder -----

  lemma {:induction false} ActiveConcat(a: seq<VotingKey>, b: seq<VotingKey>, epoch: int)
    ensures Active(a + b, epoch) == Active(a, epoch) + Active(b, epoch)
  {
    if |a| == 0 {
      assert a + b == b;
    } else {
      assert (a + b)[1..] == a[1..] + b;
      ActiveConcat(a[1..], b, epoch);
    }
  }

  lemma {:induction false} ActiveAgain(files: seq<VotingKey>, earlier: int, epoch: int)
    requires earlier <= epoch
    ensures Active(Active(files, earlier), epoch) == Active(files, epoch)
  {
    if |files| != 0 {
      ActiveAgain(files[1..], earlier, epoch);
      if files[0].endEpoch >= earlier {
        assert ([files[0]] + Active(files[1..], earlier))[1..] == Active(files[1..], earlier);
      }
    }
  }

  lemma {:induction false} ActiveSize(files: seq<VotingKey>, epoch: int)
    ensures |Active(files, epoch)| <= |files|
  {
    if |files| != 0 {
      ActiveSize(files[1..], epoch);
    }
  }

  lemma {:induction false} ActiveIsOrdered(files: seq<VotingKey>, epoch: int)
    requires Ordered(files)
    ensures Ordered(Active(files, epoch))
  {
    if |files| != 0 {
      var rest := files[1..];
      forall k | k in rest
        ensures Proper(k)
      {
        assert k in files;
      }
      ActiveIsOrdered(rest, epoch);
      ActiveMembers(rest, epoch);
      forall k | k in rest
        ensures files[0].endEpoch < k.startEpoch
      {
        var i :| 0 <= i < |rest| && rest[i] == k;
        assert files[i + 1] == k;
      }
      assert files[0] in files;
      PrependEarliest(files[0], Active(rest, epoch));
    }
  }

  lemma PrependEarliest(first: VotingKey, rest: seq<VotingKey>)
    requires Proper(first) && Ordered(rest) && forall k | k in rest :: first.endEpoch < k.startEpoch
    ensures Ordered([first] + rest)
  {
  }

  /** If some file covers the epoch, the first active file does. */
  lemma {:induction false} FirstActiveCovers(files: seq<VotingKey>, epoch: int, i: nat)
    requires Ordered(files) && i < |files| && Covers(files[i], epoch)
    ensures |Active(files, epoch)| > 0 && Covers(Active(files, epoch)[0], epoch)
  {
    if files[0].endEpoch < epoch {
      assert forall k | k in files[1..] :: k in files;
      FirstActiveCovers(files[1..], epoch, i - 1);
    }
  }

  /** What was among the first three active files and is still active is a beginning of today's active files. */
  lemma {:induction false} OldLinksComeFirst(files: seq<VotingKey>, earlier: int, epoch: int, after: seq<VotingKey>)
    requires earlier <= epoch && files <= after
    ensures var still := Active(FirstThree(Active(files, earlier)), epoch);
      |still| <= MAX_VOTING_KEYS && still <= Active(after, epoch)
  {
    var was := Active(files, earlier);
    var first := FirstThree(was);
    assert was == first + was[|first|..];
    ActiveConcat(first, was[|first|..], epoch);
    ActiveAgain(files, earlier, epoch);
    assert after == files + after[|files|..];
    ActiveConcat(files, after[|files|..], epoch);
    ActiveSize(first, epoch);
  }

  // ----- the link plan on a beginning of the active files -----

  function Max(a: nat, b: nat): nat {
    if a < b then b else a
  }

  function LinkedPrefix(p: nat, n: nat): nat {
    Max(p, if n < MAX_VOTING_KEYS then n else MAX_VOTING_KEYS)
  }

  /** One round of the planner when exactly the first `m` active files are linked. */
  lemma StepOnPrefix(active: seq<VotingKey>, m: nat, n: nat, keys: seq<VotingKey>)
    requires Ordered(active) && m <= |active| && n < |active| && m <= MAX_VOTING_KEYS
    requires Sound(keys) && KeySet(keys) == KeySet(active[..m])
    requires m < MAX_VOTING_KEYS ==> n <= m
    ensures var after := LinkStep(VotingPlan([], keys), active[n], true).remaining;
      KeySet(after) == KeySet(active[..if n == m < MAX_VOTING_KEYS then m + 1 else m])
  {
    hide KeySet, Overlaps;
    PrefixIsSound(active, m);
    KeySetSize(keys);
    KeySetSize(active[..m]);
    if n < m {
      LinkedFileIsFound(active, m, n, keys);
    } else {
      NewFileIsNotFound(active, m, n, keys);
      KeySetAdd(keys, active[n]);
      KeySetAdd(active[..n], active[n]);
      assert active[..n + 1] == active[..n] + [active[n]];
    }
  }

  lemma LinkedFileIsFound(active: seq<VotingKey>, m: nat, n: nat, keys: seq<VotingKey>)
    requires Ordered(active) && n < m <= |active| && KeySet(keys) == KeySet(active[..m])
    ensures var i := FindOverlap(active[n], keys);
      i < |keys| && SameAccount(keys[i], active[n])
  {
    OrderedIsSound(active);
    assert active[n] in active && active[..m][n] == active[n];
    assert Canon(active[n]) in KeySet(active[..m]);
    var k := KeySetMember(keys, Canon(active[n]));
    var i := FindOverlap(active[n], keys);
    assert Overlaps(active[n], keys[k]);
    var j := PrefixPosition(active, m, keys, i);
    SoundPosition(active, n, j);
  }

  lemma NewFileIsNotFound(active: seq<VotingKey>, m: nat, n: nat, keys: seq<VotingKey>)
    requires Ordered(active) && m <= n < |active| && KeySet(keys) == KeySet(active[..m])
    ensures FindOverlap(active[n], keys) == |keys|
  {
    OrderedIsSound(active);
    forall i | 0 <= i < |keys|
      ensures !Overlaps(active[n], keys[i])
    {
      var j := PrefixPosition(active, m, keys, i);
      SoundPosition(active, n, j);
    }
  }

  lemma PrefixIsSound(active: seq<VotingKey>, m: nat)
    requires Ordered(active) && m <= |active|
    ensures Sound(active[..m])
  {
    assert forall k | k in active[..m] :: k in active;
  }

  lemma PrefixPosition(active: seq<VotingKey>, m: nat, keys: seq<VotingKey>, i: nat) returns (j: nat)
    requires m <= |active| && i < |keys| && KeySet(keys) == KeySet(active[..m])
    ensures j < m && SameAccount(active[j], keys[i])
  {
    assert Canon(keys[i]) in KeySet(keys);
    j := KeySetMember(active[..m], Canon(keys[i]));
  }

  lemma {:induction false} LinkFilesFromPrefix(active: seq<VotingKey>, p: nat, keys: seq<VotingKey>, n: nat,
                                               confirm: nat -> bool)
    requires Ordered(active) && p <= |active| && p <= MAX_VOTING_KEYS && n <= |active|
    requires Sound(keys) && KeySet(keys) == KeySet(active[..p])
    requires Linkable(keys, active) && forall i :: confirm(i)
    ensures KeySet(LinkFiles(VotingPlan([], keys), active, n, confirm).remaining)
        == KeySet(active[..LinkedPrefix(p, n)])
  {
    hide LinkStep, KeySet;
    if n != 0 {
      LinkFilesFromPrefix(active, p, keys, n - 1, confirm);
      LinkFilesMembers(keys, active, n - 1, confirm);
      var now := LinkFiles(VotingPlan([], keys), active, n - 1, confirm);
      LinkStepEmits(now, active[n - 1], true);
      StepOnPrefix(active, LinkedPrefix(p, n - 1), n - 1, now.remaining);
    }
  }

  /** The first loop on a listing of some keys keeps exactly the active ones. */
  lemma KeptAreActive(listing: seq<VotingKey>, keys: seq<VotingKey>, epoch: int, confirm: nat -> bool)
    requires KeySet(listing) == KeySet(keys) && forall i :: confirm(i)
    ensures KeySet(UnlinkExpired(listing, |listing|, epoch, confirm).remaining) == KeySet(Active(keys, epoch))
  {
    var kept := UnlinkExpired(listing, |listing|, epoch, confirm).remaining;
    ExpiredMembers(listing, |listing|, epoch, confirm);
    assert listing[..|listing|] == listing;
    ActiveMembers(keys, epoch);
    forall k | k in kept
      ensures Canon(k) in KeySet(Active(keys, epoch))
    {
      assert Canon(k) in KeySet(listing);
      var i := KeySetMember(keys, Canon(k));
      assert keys[i] in Active(keys, epoch);
    }
    forall k | k in Active(keys, epoch)
      ensures Canon(k) in KeySet(kept)
    {
      assert Canon(k) in KeySet(keys);
      var i := KeySetMember(listing, Canon(k));
      assert listing[i] in kept;
    }
  }

  /** One link plan, from the first three of an earlier active list to the first three of today's. */
  lemma {:induction false} PlanLinksFirstThree(files: seq<VotingKey>, earlier: int, epoch: int,
                                               after: seq<VotingKey>, listing: seq<VotingKey>, answers: Answers)
    requires Ordered(after) && files <= after && earlier <= epoch && AllConfirmed(answers)
    requires Sound(listing) && KeySet(listing) == KeySet(FirstThree(Active(files, earlier)))
    requires Plannable(listing, after, epoch)
    ensures KeySet(LinkPlan(listing, after, epoch, answers).remaining) == KeySet(FirstThree(Active(after, epoch)))
  {
    hide LinkStep, KeySet;
    var active := Active(after, epoch);
    var still := Active(FirstThree(Active(files, earlier)), epoch);
    var kept := UnlinkExpired(listing, |listing|, epoch, answers.expired);
    OldLinksComeFirst(files, earlier, epoch, after);
    KeptAreActive(listing, FirstThree(Active(files, earlier)), epoch, answers.expired);
    ActiveIsOrdered(after, epoch);
    KeptIsLinkable(listing, after, epoch, answers.expired);
    assert active[..|still|] == still;
    LinkFilesFromPrefix(active, |still|, kept.remaining, |active|, answers.overlapping);
    LinkFilesEmits(kept, active, |active|, answers.overlapping);
    assert active[..LinkedPrefix(|still|, |active|)] == FirstThree(active);
  }

  // ----- the main result -----

  /** After every round the chain has accepted all that was announced, and the linked voting keys are
      exactly the first three unexpired files in epoch order (all of them when there are fewer). */
  lemma {:induction false} RoundsLinkFirstThree(rounds: seq<Round>)
    requires Valid(rounds)
    ensures AccountAfter(rounds).Some?
    ensures AccountAfter(rounds).value.voting
         == if |rounds| == 0 then {} else KeySet(FirstThree(Active(FilesAfter(rounds), rounds[|rounds| - 1].epoch)))
    ensures History(FilesAfter(rounds), if |rounds| == 0 then 1 else rounds[|rounds| - 1].epoch)
  {
    hide KeySet, LinkPlan, RunOnce, Lists, UnlinksFirst;
    if |rounds| != 0 {
      var init, last := rounds[..|rounds| - 1], rounds[|rounds| - 1];
      var files, after := FilesAfter(init), FilesAfter(rounds);
      var earlier := if |init| == 0 then 1 else init[|init| - 1].epoch;
      RoundsLinkFirstThree(init);
      RunKeepsHistory(files, earlier, last.epoch, true, last.settings, last.publicKey);
      NothingLinkedAtFirst(init);
      var account := AccountAfter(init).value;
      ListedKeys(last.listing, account.voting);
      ListingFitsFiles(files, earlier, after, last.listing, last.epoch);
      PlanLinksFirstThree(files, earlier, last.epoch, after, last.listing, last.answers);
      LinkPlanRun(account, last.listing, after, last.epoch, last.answers);
      SortIsSafe(account, LinkPlan(last.listing, after, last.epoch, last.answers).transactions);
    }
  }

  lemma ListedKeys(listing: seq<VotingKey>, chain: set<VotingKey>)
    requires Lists(listing, chain)
    ensures KeySet(listing) == chain
  {
  }

  lemma NothingLinkedAtFirst(init: seq<Round>)
    ensures |init| == 0 ==> FilesAfter(init) == [] && KeySet(FirstThree(Active([], 1))) == {}
  {
  }

  /** A listing of the keys linked by earlier rounds is one the planner is made for. */
  lemma ListingFitsFiles(files: seq<VotingKey>, earlier: int, after: seq<VotingKey>, listing: seq<VotingKey>,
                         epoch: int)
    requires Ordered(after) && files <= after
    requires Lists(listing, KeySet(FirstThree(Active(files, earlier))))
    ensures Sound(listing) && Plannable(listing, after, epoch)
  {
    var was := FirstThree(Active(files, earlier));
    PrefixIsOrdered(files, after);
    ActiveIsOrdered(files, earlier);
    PrefixIsSound(Active(files, earlier), |was|);
    assert Active(files, earlier)[..|was|] == was;
    ListingIsSound(listing, was);
    OrderedIsSound(after);
    ActiveMembers(after, epoch);
    SoundIsCoherent(Active(after, epoch));
    forall f | f in Active(after, epoch)
      ensures AtMostOneInTheWay(f, listing)
    {
      ActiveMembers(files, earlier);
      OneBehindEachKey(was, listing, after, f);
    }
  }

  lemma PrefixIsOrdered(files: seq<VotingKey>, after: seq<VotingKey>)
    requires Ordered(after) && files <= after
    ensures Ordered(files) && forall k | k in files :: k in after
  {
    assert files == after[..|files|];
  }

  lemma OneBehindEachKey(was: seq<VotingKey>, listing: seq<VotingKey>, after: seq<VotingKey>, f: VotingKey)
    requires Sound(after) && f in after && (forall k | k in was :: k in after)
    requires Sound(listing) && KeySet(listing) == KeySet(was)
    ensures AtMostOneInTheWay(f, listing)
  {
    forall a, b | a in listing && b in listing && Overlaps(f, a) && Overlaps(f, b)
      ensures a == b
    {
      var i :| 0 <= i < |listing| && listing[i] == a;
      var j :| 0 <= j < |listing| && listing[j] == b;
      var x := Listed(listing, i, was);
      var y := Listed(listing, j, was);
      SoundMembers(after, f, x);
      SoundMembers(after, f, y);
      SoundPosition(listing, i, j);
    }
  }

  /** After every round some linked key covers the present epoch. */
  lemma {:induction false} PresentEpochIsLinked(rounds: seq<Round>)
    requires Valid(rounds) && |rounds| > 0
    ensures AccountAfter(rounds).Some?
    ensures exists k :: k in AccountAfter(rounds).value.voting && Covers(k, rounds[|rounds| - 1].epoch)
  {
    hide RunOnce, KeySet, Active, LinkPlan, UnlinksFirst;
    var init, last := rounds[..|rounds| - 1], rounds[|rounds| - 1];
    RoundsLinkFirstThree(rounds);
    RoundsLinkFirstThree(init);
    UpdatedRunCovers(FilesAfter(init), if |init| == 0 then 1 else init[|init| - 1].epoch, last.epoch, last.settings,
                     last.publicKey, last.epoch);
    FirstThreeCover(FilesAfter(rounds), last.epoch);
  }

  lemma FirstThreeCover(files: seq<VotingKey>, epoch: int)
    requires Ordered(files) && InExactlyOne(files, epoch)
    ensures exists k :: k in KeySet(FirstThree(Active(files, epoch))) && Covers(k, epoch)
  {
    var i: nat :| i < |files| && OnlyAt(files, i, epoch);
    FirstActiveCovers(files, epoch, i);
    var first := FirstThree(Active(files, epoch))[0];
    assert Canon(first) in KeySet(FirstThree(Active(files, epoch)));
  }
}
