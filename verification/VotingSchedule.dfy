/** When a node gets another voting key file, and which epochs the file covers. */
module VotingSchedule {
  import opened VotingKeys

  /** Configured lengths, in epochs: of a file, and of the future that must stay covered. */
  datatype Settings = Settings(lifetime: nat, futureLifetime: nat)

  function LastEnd(files: seq<VotingKey>): int {
    if |files| == 0 then 0 else files[|files| - 1].endEpoch
  }

  function MaxEnd(files: seq<VotingKey>, epoch: int): int {
    if LastEnd(files) >= epoch - 1 then LastEnd(files) else epoch - 1
  }

  predicate UpToDate(files: seq<VotingKey>, epoch: int, s: Settings) {
    MaxEnd(files, epoch) > epoch + s.futureLifetime
  }

  predicate Creates(files: seq<VotingKey>, epoch: int, update: bool, s: Settings) {
    !UpToDate(files, epoch, s) && (update || |files| == 0)
  }

  function NextKey(files: seq<VotingKey>, epoch: int, s: Settings, publicKey: string): VotingKey {
    VotingKey(publicKey, MaxEnd(files, epoch) + 1, MaxEnd(files, epoch) + s.lifetime)
  }

  function RunOnce(files: seq<VotingKey>, epoch: int, update: bool, s: Settings, publicKey: string): seq<VotingKey> {
    if Creates(files, epoch, update, s) then files + [NextKey(files, epoch, s, publicKey)] else files
  }

  /** What a history of runs leaves behind by `epoch`: files in order, and each file starts right
      after the one before it unless it starts no later than `epoch`. */
  ghost predicate History(files: seq<VotingKey>, epoch: int) {
    && Ordered(files)
    && forall i | 0 <= i < |files| ::
         files[i].startEpoch <= epoch || (i > 0 && files[i].startEpoch == files[i - 1].endEpoch + 1)
  }

  lemma {:induction false} LastIsGreatest(files: seq<VotingKey>)
    requires Ordered(files)
    ensures forall k | k in files :: k.endEpoch <= LastEnd(files)
  {
    forall k | k in files
      ensures k.endEpoch <= LastEnd(files)
    {
      var i :| 0 <= i < |files| && files[i] == k;
      assert files[|files| - 1] in files;
    }
  }

  /** Runs at later and later epochs keep the history sound, whatever they decide. */
  lemma {:induction false} RunKeepsHistory(files: seq<VotingKey>, before: int, epoch: int, update: bool,
                                           s: Settings, publicKey: string)
    requires History(files, before) && before <= epoch && 1 <= epoch && 1 <= s.lifetime
    ensures History(RunOnce(files, epoch, update, s, publicKey), epoch)
    ensures files <= RunOnce(files, epoch, update, s, publicKey)
  {
    RunKeepsOrder(files, epoch, update, s, publicKey);
  }

  /** At any epochs, even earlier ones, a new file starts after every file there is. */
  lemma {:induction false} RunKeepsOrder(files: seq<VotingKey>, epoch: int, update: bool, s: Settings,
                                         publicKey: string)
    requires Ordered(files) && 1 <= s.lifetime
    ensures Ordered(RunOnce(files, epoch, update, s, publicKey))
  {
    LastIsGreatest(files);
    var next := NextKey(files, epoch, s, publicKey);
    forall i | 0 <= i < |files|
      ensures files[i].endEpoch < next.startEpoch
    {
      assert files[i] in files;
    }
    assert forall k :: k in files + [next] <==> k in files || k == next;
  }

  ghost predicate OnlyAt(files: seq<VotingKey>, i: nat, epoch: int)
    requires i < |files|
  {
    Covers(files[i], epoch) && forall j | 0 <= j < |files| && j != i :: !Covers(files[j], epoch)
  }

  ghost predicate InExactlyOne(files: seq<VotingKey>, epoch: int) {
    exists i: nat | i < |files| :: OnlyAt(files, i, epoch)
  }

  /** From the present up to the last end, a history has no gap and no overlap. */
  lemma {:induction false} HistoryCovers(files: seq<VotingKey>, now: int, epoch: int, n: nat)
    requires History(files, now) && now <= epoch
    requires 0 < n <= |files| && epoch <= files[n - 1].endEpoch
    ensures InExactlyOne(files, epoch)
  {
    if files[n - 1].startEpoch > epoch {
      HistoryCovers(files, now, epoch, n - 1);
    } else {
      OnlyOneCovers(files, n - 1, epoch);
    }
  }

  lemma OnlyOneCovers(files: seq<VotingKey>, i: nat, epoch: int)
    requires Ordered(files) && i < |files| && Covers(files[i], epoch)
    ensures OnlyAt(files, i, epoch)
  {
    forall j | 0 <= j < |files| && j != i
      ensures !Covers(files[j], epoch)
    {
      assert files[i] in files && files[j] in files;
    }
  }

  /** The last epoch of the configured future is covered after an updating run exactly when files live longer
      than that future, or some file was still alive before the run. */
  lemma {:induction false} FutureCoveredExactlyWhen(files: seq<VotingKey>, before: int, epoch: int, s: Settings,
                                                    publicKey: string)
    requires History(files, before) && before <= epoch && 1 <= epoch
    requires 1 <= s.lifetime && s.futureLifetime <= s.lifetime
    ensures InExactlyOne(RunOnce(files, epoch, true, s, publicKey), epoch + s.futureLifetime)
        <==> s.lifetime > s.futureLifetime || LastEnd(files) >= epoch
  {
    var after := RunOnce(files, epoch, true, s, publicKey);
    RunKeepsHistory(files, before, epoch, true, s, publicKey);
    LastIsGreatest(after);
    if epoch + s.futureLifetime <= LastEnd(after) {
      HistoryCovers(after, epoch, epoch + s.futureLifetime, |after|);
    } else {
      forall i | 0 <= i < |after|
        ensures !Covers(after[i], epoch + s.futureLifetime)
      {
        assert after[i] in after;
      }
    }
  }

  /** For instance, with files that live no longer than the configured future, the first file of a node leaves
      the last epoch of that future uncovered. */
  lemma {:induction false} FirstFileExample()
    ensures !InExactlyOne(RunOnce([], 1, true, Settings(2, 2), "A"), 3)
  {
    FutureCoveredExactlyWhen([], 1, 1, Settings(2, 2), "A");
  }

  /** After an updating run, the present epoch and each epoch of the configured future lie in exactly one file;
      the last one exactly when it is covered as above. */
  lemma {:induction false} UpdatedRunCovers(files: seq<VotingKey>, before: int, epoch: int, s: Settings,
                                            publicKey: string, e: int)
    requires History(files, before) && before <= epoch && 1 <= epoch
    requires 1 <= s.lifetime && s.futureLifetime <= s.lifetime
    requires epoch <= e <= epoch + s.futureLifetime
    ensures InExactlyOne(RunOnce(files, epoch, true, s, publicKey), e)
        <==> e < epoch + s.futureLifetime || s.lifetime > s.futureLifetime || LastEnd(files) >= epoch
  {
    if e == epoch + s.futureLifetime {
      FutureCoveredExactlyWhen(files, before, epoch, s, publicKey);
    } else {
      var after := RunOnce(files, epoch, true, s, publicKey);
      RunKeepsHistory(files, before, epoch, true, s, publicKey);
      HistoryCovers(after, epoch, e, |after|);
    }
  }

  /** The first file is created without being asked for, whatever the settings of updates: it starts at the
      present epoch and covers one lifetime. */
  lemma {:induction false} FirstFileIsAutomatic(epoch: int, update: bool, s: Settings, publicKey: string)
    requires 1 <= epoch && 1 <= s.lifetime
    ensures RunOnce([], epoch, update, s, publicKey) == [VotingKey(publicKey, epoch, epoch - 1 + s.lifetime)]
    ensures InExactlyOne(RunOnce([], epoch, update, s, publicKey), epoch)
  {
    var after := RunOnce([], epoch, update, s, publicKey);
    assert LastEnd([]) == 0 && MaxEnd([], epoch) == epoch - 1;
    assert after == [VotingKey(publicKey, epoch, epoch - 1 + s.lifetime)];
    OnlyOneCovers(after, 0, epoch);
  }

  /** A later file is created only by an updating run, and then exactly when no more is covered than the configured
      future: the next lifetime follows the last file, or starts at the present epoch when that has expired. */
  lemma {:induction false} LaterFilesAreAskedFor(files: seq<VotingKey>, epoch: int, update: bool, s: Settings,
                                                 publicKey: string)
    requires 1 <= epoch && |files| > 0
    ensures var after, last := RunOnce(files, epoch, update, s, publicKey), files[|files| - 1].endEpoch;
      && (!update ==> after == files)
      && (update && last > epoch + s.futureLifetime ==> after == files)
      && (update && epoch - 1 <= last <= epoch + s.futureLifetime ==>
            after == files + [VotingKey(publicKey, last + 1, last + s.lifetime)])
      && (update && last < epoch - 1 ==> after == files + [VotingKey(publicKey, epoch, epoch - 1 + s.lifetime)])
  {
  }

  // ----- repeating the run at one epoch -----

  function RunMany(files: seq<VotingKey>, epoch: int, s: Settings, publicKeys: seq<string>): seq<VotingKey> {
    if |publicKeys| == 0 then files
    else
      var last := |publicKeys| - 1;
      RunOnce(RunMany(files, epoch, s, publicKeys[..last]), epoch, true, s, publicKeys[last])
  }

  /** How far the last covered epoch is behind the configured future. */
  function Deficit(files: seq<VotingKey>, epoch: int, s: Settings): int {
    epoch + s.futureLifetime - MaxEnd(files, epoch)
  }

  /** How many files a node is short of: lifetimes to subtract before the deficit is negative. */
  function Missing(files: seq<VotingKey>, epoch: int, s: Settings): nat
    requires 1 <= s.lifetime
  {
    Steps(Deficit(files, epoch, s), s.lifetime)
  }

  function Steps(deficit: int, lifetime: nat): nat
    requires 1 <= lifetime
    decreases deficit
  {
    if deficit < 0 then 0 else 1 + Steps(deficit - lifetime, lifetime)
  }

  /** The count in closed form: the least number of lifetimes that exceeds the deficit. */
  lemma {:induction false} StepsIsLeast(deficit: int, lifetime: nat)
    requires 1 <= lifetime
    ensures Steps(deficit, lifetime) * lifetime > deficit
    ensures Steps(deficit, lifetime) > 0 ==> (Steps(deficit, lifetime) - 1) * lifetime <= deficit
    decreases deficit
  {
    if deficit >= 0 {
      StepsIsLeast(deficit - lifetime, lifetime);
    }
  }

  lemma {:induction false} OneRunFillsOne(files: seq<VotingKey>, epoch: int, s: Settings, publicKey: string)
    requires 1 <= epoch && 1 <= s.lifetime
    ensures var after := RunOnce(files, epoch, true, s, publicKey);
      if Missing(files, epoch, s) == 0
      then after == files
      else |after| == |files| + 1 && Missing(after, epoch, s) == Missing(files, epoch, s) - 1
             && Deficit(after, epoch, s) == Deficit(files, epoch, s) - s.lifetime
  {
    var d := Deficit(files, epoch, s);
    if d >= 0 {
      var after := RunOnce(files, epoch, true, s, publicKey);
      assert LastEnd(after) == MaxEnd(files, epoch) + s.lifetime;
    }
  }

  /** Repeated updating runs at one epoch create exactly the missing files and then stop. */
  lemma {:induction false} RepeatedRunsStop(files: seq<VotingKey>, epoch: int, s: Settings, publicKeys: seq<string>)
    requires 1 <= epoch && 1 <= s.lifetime
    ensures var after, missing, n := RunMany(files, epoch, s, publicKeys), Missing(files, epoch, s), |publicKeys|;
      && |after| == |files| + (if n < missing then n else missing)
      && Missing(after, epoch, s) == (if n < missing then missing - n else 0)
      && (UpToDate(after, epoch, s) <==> n >= missing)
  {
    if |publicKeys| != 0 {
      var last := |publicKeys| - 1;
      RepeatedRunsStop(files, epoch, s, publicKeys[..last]);
      OneRunFillsOne(RunMany(files, epoch, s, publicKeys[..last]), epoch, s, publicKeys[last]);
    }
  }
}
