/** When link plans are safe: exactly which files, and which keys in the way. */
module LinkLimits {
  import opened Basics
  import opened VotingKeys
  import opened AccountChain
  import opened LinkPlanner
  import opened LinkPlanLaws
  import opened LinkRoundTrips

  // ----- files that can be announced, whatever is linked -----

  /** The chain, holding the listed keys, accepts the plan with its unlinks first. */
  ghost predicate AnnouncedSafely(linked: seq<VotingKey>, files: seq<VotingKey>, epoch: int, answers: Answers) {
    ApplyAll(AccountKeys(None, None, KeySet(linked)),
             UnlinksFirst(LinkPlan(linked, files, epoch, answers).transactions)).Some?
  }

  /** Whatever is linked and answered, the plans for these files are announced safely exactly when unexpired
      files overlap only if they are the same account. */
  lemma {:induction false} FilesAreSafeExactlyWhen(files: seq<VotingKey>, epoch: int)
    requires AllProper(files)
    ensures (forall linked, answers | FitsFiles(linked, files, epoch) :: AnnouncedSafely(linked, files, epoch, answers))
        <==> Coherent(Active(files, epoch))
  {
    hide AnnouncedSafely, FitsFiles;
    var active := Active(files, epoch);
    ActiveMembers(files, epoch);
    if Coherent(active) {
      forall linked, answers | FitsFiles(linked, files, epoch)
        ensures AnnouncedSafely(linked, files, epoch, answers)
      {
        CoherentIsSafe(linked, files, epoch, answers);
      }
    } else {
      var x, y :| x in active && y in active && Overlaps(x, y) && !SameAccount(x, y);
      var i :| 0 <= i < |active| && active[i] == x;
      var j :| 0 <= j < |active| && active[j] == y;
      var linked, answers := Refused(files, epoch, if i < j then i else j, if i < j then j else i);
    }
  }

  lemma CoherentIsSafe(linked: seq<VotingKey>, files: seq<VotingKey>, epoch: int, answers: Answers)
    requires FitsFiles(linked, files, epoch) && Coherent(Active(files, epoch))
    ensures AnnouncedSafely(linked, files, epoch, answers)
  {
    hide LinkPlan;
    var s := AccountKeys(None, None, KeySet(linked));
    LinkPlanRun(s, linked, files, epoch, answers);
    SortIsSafe(s, LinkPlan(linked, files, epoch, answers).transactions);
  }

  /** An epoch from which on no file reaches. */
  function Beyond(files: seq<VotingKey>, epoch: int): int {
    if |files| == 0 then epoch + 1
    else
      var rest := Beyond(files[1..], epoch);
      if files[0].endEpoch < rest then rest else files[0].endEpoch + 1
  }

  lemma {:induction false} BeyondAll(files: seq<VotingKey>, epoch: int)
    ensures Beyond(files, epoch) > epoch && forall f | f in files :: f.endEpoch < Beyond(files, epoch)
  {
    if |files| != 0 {
      BeyondAll(files[1..], epoch);
    }
  }

  /** Another key for the same epochs. */
  function Other(f: VotingKey): VotingKey {
    f.(publicKey := f.publicKey + "+")
  }

  lemma OtherIsOther(f: VotingKey)
    ensures !SameAccount(Other(f), f) && Canon(Other(f)) != Canon(f)
  {
    assert |Upper(f.publicKey + "+")| == |Upper(f.publicKey)| + 1;
  }

  /** Three linked keys: one in the way of the file, and two behind everything. */
  function Occupied(f: VotingKey, far: int): seq<VotingKey> {
    [Other(f), VotingKey("", far, far), VotingKey("", far + 1, far + 1)]
  }

  /** Two confirmations only: for the i-th and the j-th file. */
  function Only(i: nat, j: nat): Answers {
    Answers(false, false, (n: nat) => false, (n: nat) => n == i || n == j)
  }

  /** Two overlapping files of different accounts: with three keys linked, the plan can be to replace a key
      by the first file and the first file by the second. */
  lemma Refused(files: seq<VotingKey>, epoch: int, i: nat, j: nat) returns (linked: seq<VotingKey>, answers: Answers)
    requires AllProper(files) && i < j < |Active(files, epoch)|
    requires Overlaps(Active(files, epoch)[i], Active(files, epoch)[j])
    requires !SameAccount(Active(files, epoch)[i], Active(files, epoch)[j])
    ensures FitsFiles(linked, files, epoch) && !AnnouncedSafely(linked, files, epoch, answers)
  {
    var active := Active(files, epoch);
    var f, g, far := active[i], active[j], Beyond(active, epoch);
    ActiveMembers(files, epoch);
    BeyondAll(active, epoch);
    OtherIsOther(f);
    linked, answers := Occupied(f, far), Only(i, j);
    assert f in active && g in active;
    OccupiedFits(files, epoch, f);
    OccupiedPlan(files, epoch, i, j);
    ReplacedTwice(Other(f), f, g, KeySet(linked));
    assert Canon(f) !in KeySet(linked) by {
      assert forall k | k in linked :: k == linked[0] || k == linked[1] || k == linked[2];
    }
  }

  lemma OccupiedFits(files: seq<VotingKey>, epoch: int, f: VotingKey)
    requires f in Active(files, epoch) && Proper(f)
    ensures FitsFiles(Occupied(f, Beyond(Active(files, epoch), epoch)), files, epoch)
  {
    var far := Beyond(Active(files, epoch), epoch);
    BeyondAll(Active(files, epoch), epoch);
    var linked := Occupied(f, far);
    assert forall k | k in linked :: k == linked[0] || k == linked[1] || k == linked[2];
    forall h, a, b | h in Active(files, epoch) && a in linked && b in linked && Overlaps(h, a) && Overlaps(h, b)
      ensures a == b
    {
    }
  }

  lemma FullStepIdles(p: VotingPlan, file: VotingKey)
    requires |p.remaining| >= MAX_VOTING_KEYS
    ensures LinkStep(p, file, false) == p
  {
  }

  lemma {:induction false} FullFilesIdle(p: VotingPlan, files: seq<VotingKey>, m: nat, n: nat, confirm: nat -> bool)
    requires m <= n <= |files| && forall i | m <= i < n :: !confirm(i)
    requires |LinkFiles(p, files, m, confirm).remaining| >= MAX_VOTING_KEYS
    ensures LinkFiles(p, files, n, confirm) == LinkFiles(p, files, m, confirm)
  {
    hide LinkStep;
    if m < n {
      FullFilesIdle(p, files, m, n - 1, confirm);
      FullStepIdles(LinkFiles(p, files, n - 1, confirm), files[n - 1]);
    }
  }

  /** A confirmed step that replaces one of three keys. */
  lemma Replaces(p: VotingPlan, file: VotingKey, at: nat)
    requires |p.remaining| == MAX_VOTING_KEYS && at < 3
    requires FindOverlap(file, p.remaining) == at && !SameAccount(p.remaining[at], file)
    ensures LinkStep(p, file, true)
         == VotingPlan(p.transactions + [VotingLink(p.remaining[at], Unlink)] + [VotingLink(file, Link)],
                       RemoveAt(p.remaining, at) + [file])
  {
  }

  function TwiceReplaced(x: VotingKey, f: VotingKey, g: VotingKey): seq<Transaction> {
    [VotingLink(x, Unlink), VotingLink(f, Link), VotingLink(f, Unlink), VotingLink(g, Link)]
  }

  function AfterFirst(f: VotingKey, far: int): VotingPlan {
    VotingPlan([VotingLink(Other(f), Unlink), VotingLink(f, Link)], Occupied(f, far)[1..] + [f])
  }

  function AfterSecond(f: VotingKey, g: VotingKey, far: int): VotingPlan {
    VotingPlan(TwiceReplaced(Other(f), f, g), Occupied(f, far)[1..] + [g])
  }

  lemma FirstReplaced(f: VotingKey, far: int)
    requires Proper(f) && f.endEpoch < far
    ensures LinkStep(VotingPlan([], Occupied(f, far)), f, true) == AfterFirst(f, far)
    ensures |Occupied(f, far)| == MAX_VOTING_KEYS && |AfterFirst(f, far).remaining| == MAX_VOTING_KEYS
  {
    OtherIsOther(f);
    Replaces(VotingPlan([], Occupied(f, far)), f, 0);
    assert RemoveAt(Occupied(f, far), 0) == Occupied(f, far)[1..];
  }

  lemma SecondReplaced(f: VotingKey, g: VotingKey, far: int)
    requires Overlaps(f, g) && !SameAccount(f, g) && g.endEpoch < far
    ensures LinkStep(AfterFirst(f, far), g, true) == AfterSecond(f, g, far)
    ensures |AfterSecond(f, g, far).remaining| == MAX_VOTING_KEYS
  {
    var keys := Occupied(f, far)[1..] + [f];
    assert keys[0] == VotingKey("", far, far) && keys[1] == VotingKey("", far + 1, far + 1) && keys[2] == f;
    assert !Overlaps(g, keys[0]) && !Overlaps(g, keys[1]) && Overlaps(g, keys[2]);
    assert FindOverlap(g, keys) == 2;
    Replaces(AfterFirst(f, far), g, 2);
    assert RemoveAt(keys, 2) == Occupied(f, far)[1..];
  }

  /** Nothing happens from file `m` on, up to a confirmed one. */
  lemma IdleThenStep(p: VotingPlan, files: seq<VotingKey>, m: nat, n: nat, confirm: nat -> bool)
    requires m <= n < |files| && confirm(n) && forall i | m <= i < n :: !confirm(i)
    requires |LinkFiles(p, files, m, confirm).remaining| >= MAX_VOTING_KEYS
    ensures LinkFiles(p, files, n + 1, confirm) == LinkStep(LinkFiles(p, files, m, confirm), files[n], true)
  {
    hide LinkStep;
    FullFilesIdle(p, files, m, n, confirm);
  }

  lemma OccupiedFiles(active: seq<VotingKey>, i: nat, j: nat, far: int)
    requires AllProper(active) && i < j < |active|
    requires Overlaps(active[i], active[j]) && !SameAccount(active[i], active[j])
    requires active[i].endEpoch < far && active[j].endEpoch < far
    ensures LinkFiles(VotingPlan([], Occupied(active[i], far)), active, |active|, Only(i, j).overlapping)
         == AfterSecond(active[i], active[j], far)
  {
    hide LinkStep, LinkFiles, Overlaps, SameAccount, Occupied, AfterFirst, AfterSecond;
    var f, g, confirm := active[i], active[j], Only(i, j).overlapping;
    var p := VotingPlan([], Occupied(f, far));
    assert f in active;
    FirstReplaced(f, far);
    SecondReplaced(f, g, far);
    NoFilesYet(p, active, confirm);
    IdleThenStep(p, active, 0, i, confirm);
    IdleThenStep(p, active, i + 1, j, confirm);
    FullFilesIdle(p, active, j + 1, |active|, confirm);
  }

  lemma NoFilesYet(p: VotingPlan, files: seq<VotingKey>, confirm: nat -> bool)
    ensures LinkFiles(p, files, 0, confirm) == p
  {
  }

  lemma OccupiedPlan(files: seq<VotingKey>, epoch: int, i: nat, j: nat)
    requires AllProper(files) && i < j < |Active(files, epoch)|
    requires Overlaps(Active(files, epoch)[i], Active(files, epoch)[j])
    requires !SameAccount(Active(files, epoch)[i], Active(files, epoch)[j])
    ensures var active := Active(files, epoch);
      LinkPlan(Occupied(active[i], Beyond(active, epoch)), files, epoch, Only(i, j)).transactions
      == TwiceReplaced(Other(active[i]), active[i], active[j])
  {
    hide LinkFiles, Beyond, TwiceReplaced, Overlaps, SameAccount;
    var active := Active(files, epoch);
    var far := Beyond(active, epoch);
    var linked := Occupied(active[i], far);
    ActiveMembers(files, epoch);
    BeyondAll(active, epoch);
    assert active[i] in active && active[j] in active;
    NoneExpired(linked, 3, epoch, Only(i, j).expired);
    assert linked[..3] == linked;
    OccupiedFiles(active, i, j, far);
  }

  /** Announced with its unlinks first, that plan is refused at its second transaction. */
  lemma ReplacedTwice(x: VotingKey, f: VotingKey, g: VotingKey, voting: set<VotingKey>)
    requires Canon(f) !in voting
    ensures ApplyAll(AccountKeys(None, None, voting), UnlinksFirst(TwiceReplaced(x, f, g))).None?
  {
    var txs := TwiceReplaced(x, f, g);
    var us := [VotingLink(x, Unlink), VotingLink(f, Unlink)];
    assert txs == [txs[0]] + [txs[1]] + [txs[2]] + [txs[3]];
    OfActionConcat([txs[0]] + [txs[1]] + [txs[2]], [txs[3]], Unlink);
    OfActionConcat([txs[0]] + [txs[1]], [txs[2]], Unlink);
    OfActionConcat([txs[0]], [txs[1]], Unlink);
    assert OfAction(txs, Unlink) == us;
    var s := AccountKeys(None, None, voting);
    ApplyConcat(s, us, OfAction(txs, Link));
    assert us[1..] == [VotingLink(f, Unlink)];
  }

  // ----- files across several linked keys -----

  /** One file leaves sound keys sound exactly when it replaces nothing or has at most one key in its way. */
  lemma {:induction false} StepStaysSoundExactlyWhen(keys: seq<VotingKey>, file: VotingKey, confirmed: bool)
    requires Sound(keys) && |keys| <= MAX_VOTING_KEYS && Proper(file)
    ensures Sound(LinkStep(VotingPlan([], keys), file, confirmed).remaining)
        <==> !confirmed || AtMostOneInTheWay(file, keys)
  {
    if !confirmed || AtMostOneInTheWay(file, keys) {
      StepStaysSound(keys, file, confirmed);
    } else {
      var k := CrossedKeyStays(keys, file);
      var after := LinkStep(VotingPlan([], keys), file, true).remaining;
      if Sound(after) {
        SoundMembers(after, file, k);
      }
    }
  }

  lemma StepStaysSound(keys: seq<VotingKey>, file: VotingKey, confirmed: bool)
    requires Sound(keys) && |keys| <= MAX_VOTING_KEYS && Proper(file)
    requires !confirmed || AtMostOneInTheWay(file, keys)
    ensures Sound(LinkStep(VotingPlan([], keys), file, confirmed).remaining)
  {
    if FindOverlap(file, keys) == |keys| {
      NothingInTheWay(file, keys);
    }
    if confirmed || FindOverlap(file, keys) == |keys| {
      LinkStepRun(AccountKeys(None, None, KeySet(keys)), keys, file, confirmed);
    }
  }

  lemma NotTheSame(keys: seq<VotingKey>, file: VotingKey, i: nat, k: VotingKey)
    requires Sound(keys) && i < |keys| && k in keys && k != keys[i]
    requires Overlaps(file, keys[i]) && Overlaps(file, k)
    ensures !SameAccount(keys[i], file) && k != file && k in RemoveAt(keys, i)
  {
    SoundMembers(keys, k, keys[i]);
    KeySetRemove(keys, i);
  }

  /** A confirmed file with two keys in its way ends up linked beside one of them. */
  lemma CrossedKeyStays(keys: seq<VotingKey>, file: VotingKey) returns (k: VotingKey)
    requires Sound(keys) && |keys| <= MAX_VOTING_KEYS && !AtMostOneInTheWay(file, keys)
    ensures k in keys && Overlaps(file, k) && k != file
    ensures var after := LinkStep(VotingPlan([], keys), file, true).remaining; file in after && k in after
  {
    hide Sound, KeySet;
    var a, b :| a in keys && b in keys && Overlaps(file, a) && Overlaps(file, b) && a != b;
    var i := FindOverlap(file, keys);
    k := if a == keys[i] then b else a;
    NotTheSame(keys, file, i, k);
    var rest := RemoveAt(keys, i);
    assert LinkStep(VotingPlan([], keys), file, true).remaining == rest + [file];
    assert (rest + [file])[|rest|] == file;
  }

  function LinkedAfter(keys: seq<VotingKey>, files: seq<VotingKey>, n: nat, confirm: nat -> bool): seq<VotingKey>
    requires n <= |files|
  {
    LinkFiles(VotingPlan([], keys), files, n, confirm).remaining
  }

  ghost predicate SoundAllAlong(keys: seq<VotingKey>, files: seq<VotingKey>, n: nat, confirm: nat -> bool)
    requires n <= |files|
  {
    forall m | 0 <= m <= n :: Sound(LinkedAfter(keys, files, m, confirm))
  }

  /** Each file, when its turn comes, replaces nothing or has at most one key in its way. */
  ghost predicate NeverAcross(keys: seq<VotingKey>, files: seq<VotingKey>, n: nat, confirm: nat -> bool)
    requires n <= |files|
  {
    forall m | 0 <= m < n :: !confirm(m) || AtMostOneInTheWay(files[m], LinkedAfter(keys, files, m, confirm))
  }

  lemma NextAfter(keys: seq<VotingKey>, files: seq<VotingKey>, n: nat, confirm: nat -> bool)
    requires n < |files|
    ensures LinkedAfter(keys, files, n + 1, confirm)
         == LinkStep(VotingPlan([], LinkedAfter(keys, files, n, confirm)), files[n], confirm(n)).remaining
  {
    hide LinkStep;
    LinkStepEmits(LinkFiles(VotingPlan([], keys), files, n, confirm), files[n], confirm(n));
  }

  /** Any files at all: the linked keys are disjoint after each of them exactly when no confirmed file, when
      its turn comes, lies across two keys. */
  lemma {:induction false} SoundAllAlongExactlyWhen(keys: seq<VotingKey>, files: seq<VotingKey>, n: nat,
                                                    confirm: nat -> bool)
    requires Sound(keys) && |keys| <= MAX_VOTING_KEYS && AllProper(files) && n <= |files|
    ensures SoundAllAlong(keys, files, n, confirm) <==> NeverAcross(keys, files, n, confirm)
    ensures SoundAllAlong(keys, files, n, confirm) ==> |LinkedAfter(keys, files, n, confirm)| <= MAX_VOTING_KEYS
  {
    hide LinkStep, Sound;
    if n == 0 {
      assert LinkedAfter(keys, files, 0, confirm) == keys;
    } else {
      var now := LinkedAfter(keys, files, n - 1, confirm);
      SoundAllAlongExactlyWhen(keys, files, n - 1, confirm);
      NextAfter(keys, files, n - 1, confirm);
      assert files[n - 1] in files;
      if SoundAllAlong(keys, files, n - 1, confirm) {
        StepStaysSoundExactlyWhen(now, files[n - 1], confirm(n - 1));
        LinkStepMembers(now, files[n - 1], confirm(n - 1));
      }
    }
  }

  /** No key is touched by two files. */
  ghost predicate TouchedOnce(keys: seq<VotingKey>, files: seq<VotingKey>) {
    forall i, j, k | 0 <= i < j < |files| && k in keys :: !(Overlaps(files[i], k) && Overlaps(files[j], k))
  }

  lemma StepKeeps(keys: seq<VotingKey>, file: VotingKey, confirmed: bool)
    ensures var after := LinkStep(VotingPlan([], keys), file, confirmed).remaining;
      && (forall k | k in keys && !Overlaps(file, k) :: k in after)
      && (forall k | k in after :: k in keys || k == file)
      && (|keys| <= MAX_VOTING_KEYS ==> |after| <= MAX_VOTING_KEYS)
  {
    var i := FindOverlap(file, keys);
    if i < |keys| {
      var rest := RemoveAt(keys, i);
      forall k | k in keys && !Overlaps(file, k)
        ensures k in rest
      {
        var j :| 0 <= j < |keys| && keys[j] == k;
        assert k == rest[if j < i then j else j - 1];
      }
    }
  }

  ghost predicate Beside(f: VotingKey, k: VotingKey, now: seq<VotingKey>) {
    f != k && Overlaps(f, k) && f in now && k in now
  }

  /** One of the first files is linked beside a key it overlaps. */
  ghost predicate Clash(keys: seq<VotingKey>, files: seq<VotingKey>, n: nat, now: seq<VotingKey>)
    requires n <= |files|
  {
    exists i, k | 0 <= i < n && k in keys :: Beside(files[i], k, now)
  }

  /** Each of the first files replaces nothing or has at most one key in its way. */
  ghost predicate NoneAcross(keys: seq<VotingKey>, files: seq<VotingKey>, n: nat, confirm: nat -> bool)
    requires n <= |files|
  {
    forall i | 0 <= i < n :: !confirm(i) || AtMostOneInTheWay(files[i], keys)
  }

  ghost predicate Untouched(k: VotingKey, files: seq<VotingKey>, n: nat)
    requires n <= |files|
  {
    forall i | 0 <= i < n :: !Overlaps(files[i], k)
  }

  /** What the second loop has made of the keys after some files. */
  ghost predicate Reached(keys: seq<VotingKey>, files: seq<VotingKey>, n: nat, confirm: nat -> bool,
                          now: seq<VotingKey>)
    requires n <= |files|
  {
    && |now| <= MAX_VOTING_KEYS
    && (forall k | k in now :: k in keys || k in files[..n])
    && (forall k | k in keys && Untouched(k, files, n) :: k in now)
    && (if NoneAcross(keys, files, n, confirm) then Sound(now) else Clash(keys, files, n, now))
  }

  lemma ReachedMembers(keys: seq<VotingKey>, files: seq<VotingKey>, n: nat, confirm: nat -> bool, now: seq<VotingKey>)
    requires n < |files| && Reached(keys, files, n, confirm, now)
    ensures var after := LinkStep(VotingPlan([], now), files[n], confirm(n)).remaining;
      && |after| <= MAX_VOTING_KEYS
      && (forall k | k in after :: k in keys || k in files[..n + 1])
      && (forall k | k in keys && Untouched(k, files, n + 1) :: k in after)
  {
    hide LinkStep, Clash, NoneAcross;
    StepKeeps(now, files[n], confirm(n));
    NextFile(files, n);
    forall k | k in keys && Untouched(k, files, n + 1)
      ensures k in now && !Overlaps(files[n], k)
    {
      assert Untouched(k, files, n);
    }
  }

  /** A clash stays: no later file touches the key, nor the file. */
  lemma ClashStays(keys: seq<VotingKey>, files: seq<VotingKey>, n: nat, confirmed: bool, now: seq<VotingKey>)
    requires Coherent(files) && TouchedOnce(keys, files) && n < |files| && Clash(keys, files, n, now)
    ensures Clash(keys, files, n + 1, LinkStep(VotingPlan([], now), files[n], confirmed).remaining)
  {
    hide LinkStep;
    var i, k :| 0 <= i < n && k in keys && Beside(files[i], k, now);
    StepKeeps(now, files[n], confirmed);
    assert files[i] in files && files[n] in files;
    assert Beside(files[i], k, LinkStep(VotingPlan([], now), files[n], confirmed).remaining);
  }

  /** As long as nothing clashes, the keys in the way of a file are those it started with. */
  lemma FirstAcrossClashes(keys: seq<VotingKey>, files: seq<VotingKey>, n: nat, confirm: nat -> bool,
                           now: seq<VotingKey>)
    requires Coherent(files) && TouchedOnce(keys, files) && n < |files|
    requires Reached(keys, files, n, confirm, now) && NoneAcross(keys, files, n, confirm)
    ensures var after := LinkStep(VotingPlan([], now), files[n], confirm(n)).remaining;
      if !confirm(n) || AtMostOneInTheWay(files[n], keys) then Sound(after) else Clash(keys, files, n + 1, after)
  {
    hide LinkStep, NoneAcross;
    assert files[n] in files;
    if !confirm(n) || AtMostOneInTheWay(files[n], keys) {
      if AtMostOneInTheWay(files[n], keys) {
        OneStillInTheWay(keys, files, n, now);
      }
      StepStaysSoundExactlyWhen(now, files[n], confirm(n));
    } else {
      BothStillInTheWay(keys, files, n, now);
      var k := CrossedKeyStays(now, files[n]);
      CrossedIsOld(keys, files, n, k);
      assert Beside(files[n], k, LinkStep(VotingPlan([], now), files[n], true).remaining);
    }
  }

  lemma OneStillInTheWay(keys: seq<VotingKey>, files: seq<VotingKey>, n: nat, now: seq<VotingKey>)
    requires Coherent(files) && n < |files| && Sound(now) && AtMostOneInTheWay(files[n], keys)
    requires forall k | k in now :: k in keys || k in files[..n]
    ensures AtMostOneInTheWay(files[n], now)
  {
    NextFile(files, n);
    forall a, b | a in now && b in now && Overlaps(files[n], a) && Overlaps(files[n], b)
      ensures a == b
    {
      SoundMembers(now, a, b);
    }
  }

  lemma BothStillInTheWay(keys: seq<VotingKey>, files: seq<VotingKey>, n: nat, now: seq<VotingKey>)
    requires TouchedOnce(keys, files) && n < |files| && !AtMostOneInTheWay(files[n], keys)
    requires forall k | k in keys && Untouched(k, files, n) :: k in now
    ensures !AtMostOneInTheWay(files[n], now)
  {
    var a, b :| a in keys && b in keys && Overlaps(files[n], a) && Overlaps(files[n], b) && a != b;
    assert Untouched(a, files, n) && Untouched(b, files, n);
  }

  lemma CrossedIsOld(keys: seq<VotingKey>, files: seq<VotingKey>, n: nat, k: VotingKey)
    requires Coherent(files) && TouchedOnce(keys, files) && n < |files| && !AtMostOneInTheWay(files[n], keys)
    requires Overlaps(files[n], k) && (k in keys || k in files[..n])
    ensures k in keys
  {
    var a :| a in keys && Overlaps(files[n], a);
    forall i | 0 <= i < n
      ensures files[i] != k
    {
      assert files[i] in files && files[n] in files;
      assert !Overlaps(files[i], a);
    }
  }

  lemma {:induction false} LinkFilesReach(keys: seq<VotingKey>, files: seq<VotingKey>, n: nat, confirm: nat -> bool)
    requires Sound(keys) && |keys| <= MAX_VOTING_KEYS && Coherent(files) && TouchedOnce(keys, files) && n <= |files|
    ensures Reached(keys, files, n, confirm, LinkFiles(VotingPlan([], keys), files, n, confirm).remaining)
  {
    hide LinkStep, Reached, TouchedOnce;
    if n == 0 {
      ReachedAtFirst(keys, files, confirm);
    } else {
      LinkFilesReach(keys, files, n - 1, confirm);
      var p := LinkFiles(VotingPlan([], keys), files, n - 1, confirm);
      LinkStepEmits(p, files[n - 1], confirm(n - 1));
      ReachedNext(keys, files, n - 1, confirm, p.remaining);
    }
  }

  lemma ReachedAtFirst(keys: seq<VotingKey>, files: seq<VotingKey>, confirm: nat -> bool)
    requires Sound(keys) && |keys| <= MAX_VOTING_KEYS
    ensures Reached(keys, files, 0, confirm, keys)
  {
  }

  lemma ReachedNext(keys: seq<VotingKey>, files: seq<VotingKey>, n: nat, confirm: nat -> bool, now: seq<VotingKey>)
    requires Coherent(files) && TouchedOnce(keys, files) && n < |files| && Reached(keys, files, n, confirm, now)
    ensures Reached(keys, files, n + 1, confirm, LinkStep(VotingPlan([], now), files[n], confirm(n)).remaining)
  {
    hide LinkStep, TouchedOnce, Coherent, Sound, Clash;
    ReachedMembers(keys, files, n, confirm, now);
    if NoneAcross(keys, files, n, confirm) {
      FirstAcrossClashes(keys, files, n, confirm, now);
    } else {
      ClashStays(keys, files, n, confirm(n), now);
    }
  }

  lemma ClashIsUnsound(keys: seq<VotingKey>, files: seq<VotingKey>, n: nat, now: seq<VotingKey>)
    requires n <= |files| && Clash(keys, files, n, now)
    ensures !Sound(now)
  {
    var i, k :| 0 <= i < n && k in keys && Beside(files[i], k, now);
    if Sound(now) {
      SoundMembers(now, files[i], k);
    }
  }

  /** When no key is touched by two unexpired files, a link plan leaves disjoint keys exactly when no
      confirmed file lies across two of the keys left by the first loop. */
  lemma {:induction false} TouchedOnceStaysSoundExactlyWhen(linked: seq<VotingKey>, files: seq<VotingKey>, epoch: int,
                                                     answers: Answers)
    requires Sound(linked) && |linked| <= MAX_VOTING_KEYS && Coherent(Active(files, epoch))
    requires TouchedOnce(UnlinkExpired(linked, |linked|, epoch, answers.expired).remaining, Active(files, epoch))
    ensures var kept, active := UnlinkExpired(linked, |linked|, epoch, answers.expired).remaining, Active(files, epoch);
      Sound(LinkPlan(linked, files, epoch, answers).remaining)
      <==> NoneAcross(kept, active, |active|, answers.overlapping)
  {
    hide LinkStep, TouchedOnce, NoneAcross, Clash;
    var p, active := UnlinkExpired(linked, |linked|, epoch, answers.expired), Active(files, epoch);
    var s := AccountKeys(None, None, KeySet(linked));
    ExpiredRun(s, linked, |linked|, epoch, answers.expired);
    ExpiredMembers(linked, |linked|, epoch, answers.expired);
    WorkingEnds(p.remaining, linked);
    LinkFilesEmits(p, active, |active|, answers.overlapping);
    LinkFilesReach(p.remaining, active, |active|, answers.overlapping);
    var now := LinkPlan(linked, files, epoch, answers).remaining;
    if !NoneAcross(p.remaining, active, |active|, answers.overlapping) {
      ClashIsUnsound(p.remaining, active, |active|, now);
    }
  }

  // ----- disjoint files, however many keys they touch -----

  /** The linked keys that a file leaves: a confirmed one takes out the first key in its way, unless that is
      the same account. */
  function Left(left: seq<VotingKey>, file: VotingKey, confirmed: bool): seq<VotingKey> {
    var i := FindOverlap(file, left);
    if i < |left| && confirmed && !SameAccount(left[i], file) then RemoveAt(left, i) else left
  }

  /** The files that are linked after one more. */
  function More(left: seq<VotingKey>, added: seq<VotingKey>, file: VotingKey, confirmed: bool): seq<VotingKey> {
    var i := FindOverlap(file, left);
    if (if i < |left| then confirmed && !SameAccount(left[i], file) else |left| + |added| < MAX_VOTING_KEYS)
    then added + [file] else added
  }

  /** The linked keys that the first files leave. */
  function Survivors(keys: seq<VotingKey>, files: seq<VotingKey>, n: nat, confirm: nat -> bool): seq<VotingKey>
    requires n <= |files|
  {
    if n == 0 then keys else Left(Survivors(keys, files, n - 1, confirm), files[n - 1], confirm(n - 1))
  }

  /** The files that the plan links. */
  function Added(keys: seq<VotingKey>, files: seq<VotingKey>, n: nat, confirm: nat -> bool): seq<VotingKey>
    requires n <= |files|
  {
    if n == 0 then []
    else
      More(Survivors(keys, files, n - 1, confirm), Added(keys, files, n - 1, confirm), files[n - 1], confirm(n - 1))
  }

  /** The file would have to replace the key, which is of another account. */
  predicate Blocks(k: VotingKey, file: VotingKey, confirmed: bool) {
    confirmed && Overlaps(file, k) && !SameAccount(file, k)
  }

  /** No survivor is left in the way of a confirmed file. */
  predicate NoneBlocked(keys: seq<VotingKey>, files: seq<VotingKey>, n: nat, confirm: nat -> bool)
    requires n <= |files|
  {
    forall i, k | 0 <= i < n && k in Survivors(keys, files, n, confirm) :: !Blocks(k, files[i], confirm(i))
  }

  lemma FoundInFront(left: seq<VotingKey>, added: seq<VotingKey>, file: VotingKey)
    requires forall a | a in added :: !Overlaps(file, a)
    ensures FindOverlap(file, left + added)
         == if FindOverlap(file, left) < |left| then FindOverlap(file, left) else |left| + |added|
  {
    var whole, i := left + added, FindOverlap(file, left);
    assert forall j | 0 <= j < |left| :: whole[j] == left[j];
    assert forall j | |left| <= j < |whole| :: whole[j] == added[j - |left|] && whole[j] in added;
    var found := FindOverlap(file, whole);
    assert found < |whole| ==> Overlaps(file, whole[found]);
    assert i < |left| ==> Overlaps(file, whole[i]);
  }

  lemma StepReplaces(left: seq<VotingKey>, added: seq<VotingKey>, file: VotingKey, i: nat)
    requires i < |left| && |left| + |added| <= MAX_VOTING_KEYS && FindOverlap(file, left + added) == i
    requires !SameAccount(left[i], file)
    ensures LinkStep(VotingPlan([], left + added), file, true).remaining == RemoveAt(left, i) + (added + [file])
  {
    hide SameAccount;
    assert (left + added)[i] == left[i];
    assert RemoveAt(left + added, i) == RemoveAt(left, i) + added;
    assert RemoveAt(left, i) + added + [file] == RemoveAt(left, i) + (added + [file]);
  }

  lemma StepFindsNothing(left: seq<VotingKey>, added: seq<VotingKey>, file: VotingKey, confirmed: bool)
    requires FindOverlap(file, left + added) == |left| + |added|
    ensures LinkStep(VotingPlan([], left + added), file, confirmed).remaining
         == if |left| + |added| < MAX_VOTING_KEYS then left + (added + [file]) else left + added
  {
    assert left + added + [file] == left + (added + [file]);
  }

  lemma StepKeepsAll(left: seq<VotingKey>, added: seq<VotingKey>, file: VotingKey, i: nat, confirmed: bool)
    requires i < |left| && FindOverlap(file, left + added) == i && (SameAccount(left[i], file) || !confirmed)
    ensures LinkStep(VotingPlan([], left + added), file, confirmed).remaining == left + added
  {
    hide SameAccount;
    assert (left + added)[i] == left[i];
  }

  /** One file works on the keys in front, and is linked behind the files linked before. */
  lemma StepOnParts(left: seq<VotingKey>, added: seq<VotingKey>, file: VotingKey, confirmed: bool)
    requires |left| + |added| <= MAX_VOTING_KEYS && forall a | a in added :: !Overlaps(file, a)
    ensures LinkStep(VotingPlan([], left + added), file, confirmed).remaining
         == Left(left, file, confirmed) + More(left, added, file, confirmed)
    ensures |Left(left, file, confirmed)| + |More(left, added, file, confirmed)| <= MAX_VOTING_KEYS
  {
    hide LinkStep, SameAccount, Overlaps;
    FoundInFront(left, added, file);
    var i := FindOverlap(file, left);
    if i == |left| {
      StepFindsNothing(left, added, file, confirmed);
    } else if SameAccount(left[i], file) || !confirmed {
      StepKeepsAll(left, added, file, i, confirmed);
    } else {
      StepReplaces(left, added, file, i);
    }
  }

  lemma LeftAreKeys(left: seq<VotingKey>, file: VotingKey, confirmed: bool)
    requires Sound(left)
    ensures Sound(Left(left, file, confirmed)) && forall k | k in Left(left, file, confirmed) :: k in left
  {
    hide SameAccount;
    var i := FindOverlap(file, left);
    if i < |left| {
      KeySetRemove(left, i);
    }
  }

  lemma MoreIsAdded(left: seq<VotingKey>, added: seq<VotingKey>, file: VotingKey, confirmed: bool)
    ensures More(left, added, file, confirmed) == added || More(left, added, file, confirmed) == added + [file]
  {
  }

  lemma {:induction false} SurvivorsAreKeys(keys: seq<VotingKey>, files: seq<VotingKey>, n: nat, confirm: nat -> bool)
    requires Sound(keys) && n <= |files|
    ensures Sound(Survivors(keys, files, n, confirm))
    ensures n > 0 ==> forall k | k in Survivors(keys, files, n, confirm) :: k in Survivors(keys, files, n - 1, confirm)
  {
    hide Sound, Left;
    if n != 0 {
      SurvivorsAreKeys(keys, files, n - 1, confirm);
      LeftAreKeys(Survivors(keys, files, n - 1, confirm), files[n - 1], confirm(n - 1));
    }
  }

  lemma {:induction false} AddedAreFiles(keys: seq<VotingKey>, files: seq<VotingKey>, n: nat, confirm: nat -> bool)
    requires Sound(files) && n <= |files|
    ensures Sound(Added(keys, files, n, confirm))
    ensures forall a | a in Added(keys, files, n, confirm) :: a in files[..n]
  {
    hide Survivors, More, Overlaps;
    if n != 0 {
      MoreIsAdded(Survivors(keys, files, n - 1, confirm), Added(keys, files, n - 1, confirm), files[n - 1],
                  confirm(n - 1));
      AddedAreFiles(keys, files, n - 1, confirm);
      NextFile(files, n - 1);
      ApartFromEarlier(files, n - 1);
      SoundAppend(Added(keys, files, n - 1, confirm), files[n - 1]);
    }
  }

  lemma ApartFromEarlier(files: seq<VotingKey>, n: nat)
    requires Sound(files) && n < |files|
    ensures Proper(files[n])
    ensures forall f | f in files[..n] :: !Overlaps(f, files[n]) && !Overlaps(files[n], f)
  {
    assert files[n] in files;
  }

  /** The linked keys are the survivors, and behind them the files that the plan links. */
  lemma {:induction false} LinkedInParts(keys: seq<VotingKey>, files: seq<VotingKey>, n: nat, confirm: nat -> bool)
    requires Sound(keys) && |keys| <= MAX_VOTING_KEYS && Sound(files) && n <= |files|
    ensures LinkedAfter(keys, files, n, confirm)
         == Survivors(keys, files, n, confirm) + Added(keys, files, n, confirm)
    ensures |LinkedAfter(keys, files, n, confirm)| <= MAX_VOTING_KEYS
  {
    hide LinkStep, Sound, LinkedAfter, Left, More;
    if n == 0 {
      NoneLinkedYet(keys, files, confirm);
      assert keys + [] == keys;
    } else {
      LinkedInParts(keys, files, n - 1, confirm);
      NextAfter(keys, files, n - 1, confirm);
      AddedAreFiles(keys, files, n - 1, confirm);
      ApartFromEarlier(files, n - 1);
      StepOnParts(Survivors(keys, files, n - 1, confirm), Added(keys, files, n - 1, confirm), files[n - 1],
                  confirm(n - 1));
    }
  }

  lemma NoneLinkedYet(keys: seq<VotingKey>, files: seq<VotingKey>, confirm: nat -> bool)
    ensures LinkedAfter(keys, files, 0, confirm) == keys
  {
  }

  /** Any key in the way of a file is the same account exactly when the one found first is. */
  lemma SameIsFirst(left: seq<VotingKey>, file: VotingKey, k: VotingKey)
    requires Sound(left) && Proper(file) && k in left && Overlaps(file, k)
    ensures var i := FindOverlap(file, left); i < |left| && (SameAccount(left[i], file) <==> SameAccount(file, k))
  {
    SoundMembers(left, left[FindOverlap(file, left)], k);
  }

  lemma JustAdded(left: seq<VotingKey>, added: seq<VotingKey>, file: VotingKey, confirmed: bool, k: VotingKey)
    requires Sound(left) && Proper(file) && k in left && Overlaps(file, k)
    ensures file in More(left, added, file, confirmed) <==> file in added || Blocks(k, file, confirmed)
  {
    hide Sound, Overlaps, SameAccount;
    SameIsFirst(left, file, k);
    assert (added + [file])[|added|] == file;
  }

  /** A linked file overlaps a survivor only if its unlink was confirmed for another account. */
  lemma {:induction false} AddedBlocked(keys: seq<VotingKey>, files: seq<VotingKey>, n: nat, confirm: nat -> bool,
                                        a: VotingKey, k: VotingKey)
    requires Sound(keys) && Sound(files) && n <= |files|
    requires a in Added(keys, files, n, confirm) && k in Survivors(keys, files, n, confirm) && Overlaps(a, k)
    ensures exists i | 0 <= i < n :: Blocks(k, files[i], confirm(i))
  {
    hide Sound, Overlaps, Blocks, More, Left;
    if n != 0 {
      var left, added, file := Survivors(keys, files, n - 1, confirm), Added(keys, files, n - 1, confirm), files[n - 1];
      SurvivorsAreKeys(keys, files, n, confirm);
      SurvivorsAreKeys(keys, files, n - 1, confirm);
      MoreIsAdded(left, added, file, confirm(n - 1));
      if a in added {
        AddedBlocked(keys, files, n - 1, confirm, a, k);
      } else {
        ApartFromEarlier(files, n - 1);
        JustAdded(left, added, file, confirm(n - 1), k);
        assert Blocks(k, files[n - 1], confirm(n - 1));
      }
    }
  }

  /** A confirmed file with a survivor of another account in its way has been linked. */
  lemma {:induction false} BlockedIsAdded(keys: seq<VotingKey>, files: seq<VotingKey>, n: nat, confirm: nat -> bool,
                                          i: nat, k: VotingKey)
    requires Sound(keys) && Sound(files) && i < n <= |files|
    requires k in Survivors(keys, files, n, confirm) && Blocks(k, files[i], confirm(i))
    ensures files[i] in Added(keys, files, n, confirm)
  {
    hide Sound, Overlaps, Blocks, More, Left;
    var left, added, file := Survivors(keys, files, n - 1, confirm), Added(keys, files, n - 1, confirm), files[n - 1];
    SurvivorsAreKeys(keys, files, n, confirm);
    SurvivorsAreKeys(keys, files, n - 1, confirm);
    if i < n - 1 {
      BlockedIsAdded(keys, files, n - 1, confirm, i, k);
      MoreIsAdded(left, added, file, confirm(n - 1));
    } else {
      ApartFromEarlier(files, i);
      BlocksOverlaps(k, file, confirm(i));
      JustAdded(left, added, file, confirm(i), k);
    }
  }

  lemma PartsAreSound(left: seq<VotingKey>, added: seq<VotingKey>)
    requires Sound(left) && Sound(added)
    ensures Sound(left + added) <==> forall a, k | a in added && k in left :: !Overlaps(a, k)
  {
    var whole := left + added;
    if Sound(whole) {
      forall a, k | a in added && k in left
        ensures !Overlaps(a, k)
      {
        var i :| 0 <= i < |left| && left[i] == k;
        var j :| 0 <= j < |added| && added[j] == a;
        assert whole[i] == k && whole[|left| + j] == a;
      }
    }
    if forall a, k | a in added && k in left :: !Overlaps(a, k) {
      forall i, j | 0 <= i < j < |whole|
        ensures !Overlaps(whole[i], whole[j])
      {
        assert i < |left| ==> whole[i] in left;
        assert j >= |left| ==> whole[j] in added;
      }
    }
  }

  /** Disjoint files leave disjoint keys exactly when none is left in the way of a confirmed file. */
  lemma {:induction false} FilesStaySoundExactlyWhen(keys: seq<VotingKey>, files: seq<VotingKey>, n: nat,
                                                     confirm: nat -> bool)
    requires Sound(keys) && |keys| <= MAX_VOTING_KEYS && Sound(files) && n <= |files|
    ensures Sound(LinkedAfter(keys, files, n, confirm)) <==> NoneBlocked(keys, files, n, confirm)
  {
    hide Sound, Survivors, Added, LinkedAfter, Blocks, Overlaps;
    var left, added := Survivors(keys, files, n, confirm), Added(keys, files, n, confirm);
    LinkedInParts(keys, files, n, confirm);
    SurvivorsAreKeys(keys, files, n, confirm);
    AddedAreFiles(keys, files, n, confirm);
    PartsAreSound(left, added);
    if NoneBlocked(keys, files, n, confirm) {
      forall a, k | a in added && k in left
        ensures !Overlaps(a, k)
      {
        if Overlaps(a, k) {
          AddedBlocked(keys, files, n, confirm, a, k);
        }
      }
    } else {
      var i, k :| 0 <= i < n && k in left && Blocks(k, files[i], confirm(i));
      BlockedIsAdded(keys, files, n, confirm, i, k);
      BlocksOverlaps(k, files[i], confirm(i));
    }
  }

  lemma BlocksOverlaps(k: VotingKey, file: VotingKey, confirmed: bool)
    ensures Blocks(k, file, confirmed) ==> Overlaps(file, k)
  {
  }

  /** A link plan for disjoint files leaves disjoint keys exactly when, of the keys left by the first loop, none
      survives in the way of a confirmed file of another account. */
  lemma {:induction false} PlanStaysSoundExactlyWhen(linked: seq<VotingKey>, files: seq<VotingKey>, epoch: int,
                                                     answers: Answers)
    requires Sound(linked) && |linked| <= MAX_VOTING_KEYS && Sound(Active(files, epoch))
    ensures var kept, active := UnlinkExpired(linked, |linked|, epoch, answers.expired).remaining, Active(files, epoch);
      Sound(LinkPlan(linked, files, epoch, answers).remaining)
      <==> NoneBlocked(kept, active, |active|, answers.overlapping)
  {
    hide LinkStep, NoneBlocked;
    var p, active := UnlinkExpired(linked, |linked|, epoch, answers.expired), Active(files, epoch);
    ExpiredRun(AccountKeys(None, None, KeySet(linked)), linked, |linked|, epoch, answers.expired);
    ExpiredMembers(linked, |linked|, epoch, answers.expired);
    WorkingEnds(p.remaining, linked);
    LinkFilesEmits(p, active, |active|, answers.overlapping);
    FilesStaySoundExactlyWhen(p.remaining, active, |active|, answers.overlapping);
  }

  // ----- the smallest examples -----

  /** Two files sharing an epoch, and nothing linked: the plan links the first, then takes it back for the
      second. */
  lemma {:induction false} OverlappingFilesPlan(a: VotingKey, b: VotingKey, epoch: int, answers: Answers)
    requires answers.overlapping(1) && Overlaps(b, a) && !SameAccount(a, b)
    requires a.endEpoch >= epoch && b.endEpoch >= epoch
    ensures LinkPlan([], [a, b], epoch, answers).transactions
         == [VotingLink(a, Link), VotingLink(a, Unlink), VotingLink(b, Link)]
  {
    var files := [a, b];
    assert files[1..] == [b] && Active([b], epoch) == [b] && Active(files, epoch) == files;
    var first := VotingPlan([VotingLink(a, Link)], [a]);
    assert LinkStep(VotingPlan([], []), a, answers.overlapping(0)) == first;
    assert RemoveAt([a], 0) == [];
    assert LinkStep(first, b, true).transactions
        == first.transactions + [VotingLink(a, Unlink)] + [VotingLink(b, Link)];
    assert LinkFiles(VotingPlan([], []), files, 1, answers.overlapping) == first;
  }

  /** Announcing that plan with the unlink first is refused. */
  lemma {:induction false} OverlappingFilesBreakTheOrder(s: AccountKeys, a: VotingKey, b: VotingKey, epoch: int,
                                                         answers: Answers)
    requires answers.overlapping(1) && Overlaps(b, a) && !SameAccount(a, b)
    requires a.endEpoch >= epoch && b.endEpoch >= epoch && s.voting == {}
    ensures var plan := LinkPlan([], [a, b], epoch, answers).transactions;
      ApplyAll(s, plan).Some? && ApplyAll(s, UnlinksFirst(plan)).None?
  {
    hide LinkPlan, UnlinksFirst;
    var plan := LinkPlan([], [a, b], epoch, answers).transactions;
    OverlappingFilesPlan(a, b, epoch, answers);
    assert plan == [VotingLink(a, Link)] + [VotingLink(a, Unlink)] + [VotingLink(b, Link)];
    ApplySnoc(s, [], VotingLink(a, Link));
    ApplySnoc(s, [VotingLink(a, Link)], VotingLink(a, Unlink));
    ApplySnoc(s, [VotingLink(a, Link)] + [VotingLink(a, Unlink)], VotingLink(b, Link));
    assert plan[0].action == Link && plan[1].action == Unlink && SameKey(plan[0], plan[1]);
    SortIsSafe(s, plan);
  }

  /** Only the first key in the way is unlinked: a file across two linked keys ends up linked beside
      the second one. */
  lemma {:induction false} SecondKeyInTheWayStays(answers: Answers)
    requires AllConfirmed(answers)
    ensures var a, b, f := VotingKey("A", 1, 5), VotingKey("B", 6, 10), VotingKey("F", 3, 8);
      LinkPlan([a, b], [f], 1, answers).remaining == [b, f] && Overlaps(b, f)
  {
    var a, b, f := VotingKey("A", 1, 5), VotingKey("B", 6, 10), VotingKey("F", 3, 8);
    NoneExpired([a, b], 2, 1, answers.expired);
    assert Active([f], 1) == [f];
    assert RemoveAt([a, b], 0) == [b];
    assert Upper("A")[0] == 'A' && Upper("F")[0] == 'F';
    assert answers.overlapping(0) && [a, b][..2] == [a, b];
    assert FindOverlap(f, [a, b]) == 0;
    assert LinkStep(VotingPlan([], [a, b]), f, true).remaining == [b] + [f];
    assert LinkFiles(VotingPlan([], [a, b]), [f], 1, answers.overlapping) == LinkStep(VotingPlan([], [a, b]), f, true);
  }
}
