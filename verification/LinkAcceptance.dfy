/** When the chain accepts what is announced, whether or not the linked keys stay disjoint. */
module LinkAcceptance {
  import opened Basics
  import opened VotingKeys
  import opened AccountChain
  import opened LinkPlanner
  import opened LinkPlanLaws
  import opened LinkRoundTrips
  import opened LinkLimits

  /** The chain sees as many different keys as are listed. */
  ghost predicate Spread(keys: seq<VotingKey>) {
    forall i, j | 0 <= i < j < |keys| :: Canon(keys[i]) != Canon(keys[j])
  }

  lemma SameAccountIsCanon(x: VotingKey, y: VotingKey)
    ensures SameAccount(x, y) <==> Canon(x) == Canon(y)
  {
  }

  lemma {:induction false} SpreadSize(keys: seq<VotingKey>)
    requires Spread(keys)
    ensures |KeySet(keys)| == |keys|
  {
    if |keys| != 0 {
      var init, last := keys[..|keys| - 1], keys[|keys| - 1];
      assert init + [last] == keys;
      SpreadSize(init);
      KeySetAdd(init, last);
    }
  }

  lemma RestMembers(keys: seq<VotingKey>, i: nat)
    requires i < |keys|
    ensures forall k | k in RemoveAt(keys, i) :: k in keys
    ensures forall k | k in keys && k != keys[i] :: k in RemoveAt(keys, i)
  {
    var rest := RemoveAt(keys, i);
    forall k | k in rest
      ensures k in keys
    {
      var j :| 0 <= j < |rest| && rest[j] == k;
      assert k == keys[if j < i then j else j + 1];
    }
    forall k | k in keys && k != keys[i]
      ensures k in rest
    {
      var j :| 0 <= j < |keys| && keys[j] == k;
      assert k == rest[if j < i then j else j - 1];
    }
  }

  lemma SpreadRest(keys: seq<VotingKey>, i: nat)
    requires Spread(keys) && i < |keys|
    ensures Spread(RemoveAt(keys, i))
    ensures forall k | k in RemoveAt(keys, i) :: Canon(k) != Canon(keys[i])
  {
    hide Canon;
    var rest := RemoveAt(keys, i);
    assert forall j | 0 <= j < |rest| :: rest[j] == keys[if j < i then j else j + 1];
  }

  lemma SpreadRemove(keys: seq<VotingKey>, i: nat)
    requires Spread(keys) && i < |keys|
    ensures Spread(RemoveAt(keys, i)) && KeySet(RemoveAt(keys, i)) == KeySet(keys) - {Canon(keys[i])}
    ensures forall k | k in RemoveAt(keys, i) :: k in keys && Canon(k) != Canon(keys[i])
  {
    hide Canon, Spread, RemoveAt;
    RestMembers(keys, i);
    SpreadRest(keys, i);
  }

  lemma SoundIsSpread(keys: seq<VotingKey>)
    requires Sound(keys)
    ensures Spread(keys)
  {
    forall i, j | 0 <= i < j < |keys|
      ensures Canon(keys[i]) != Canon(keys[j])
    {
      SoundPosition(keys, i, j);
      assert keys[i] in keys;
    }
  }

  predicate OneEpoch(k: VotingKey) {
    k.startEpoch == k.endEpoch
  }

  /** Disjoint files, except that a file of a single epoch may be listed again. */
  ghost predicate Separate(files: seq<VotingKey>) {
    && AllProper(files)
    && forall i, j | 0 <= i < j < |files| ::
         Overlaps(files[i], files[j]) ==> SameAccount(files[i], files[j]) && OneEpoch(files[i])
  }

  /** What overlaps a linked file of a single epoch is that file. */
  ghost predicate Alone(files: seq<VotingKey>, n: nat, now: seq<VotingKey>)
    requires n <= |files|
  {
    forall g, y | g in files[..n] && g in now && y in now && OneEpoch(g) && Overlaps(g, y) :: SameAccount(g, y)
  }

  /** What the first files of the second loop have made of the keys. */
  ghost predicate Kept(keys: seq<VotingKey>, files: seq<VotingKey>, n: nat, now: seq<VotingKey>)
    requires n <= |files|
  {
    && Spread(now) && |now| <= MAX_VOTING_KEYS
    && (forall k | k in now :: k in keys || k in files[..n])
    && Alone(files, n, now)
  }

  lemma EarlierFile(files: seq<VotingKey>, n: nat, g: VotingKey)
    requires Separate(files) && n < |files| && g in files[..n] && Overlaps(g, files[n])
    ensures SameAccount(g, files[n]) && OneEpoch(g) && OneEpoch(files[n])
  {
    var i :| 0 <= i < n && files[i] == g;
  }

  lemma OverlapsBothWays(x: VotingKey, y: VotingKey)
    ensures Overlaps(x, y) <==> Overlaps(y, x)
    ensures SameAccount(x, y) <==> SameAccount(y, x)
    ensures SameAccount(x, y) ==> forall z :: Overlaps(x, z) <==> Overlaps(y, z)
  {
  }

  /** The key that a file replaces was linked before all files, and the file is linked nowhere else. */
  lemma ReplacedIsOld(keys: seq<VotingKey>, files: seq<VotingKey>, n: nat, now: seq<VotingKey>, i: nat)
    requires Sound(keys) && Separate(files) && n < |files| && Kept(keys, files, n, now)
    requires i < |now| && Overlaps(files[n], now[i]) && !SameAccount(now[i], files[n])
    ensures now[i] in keys
    ensures forall k | k in now :: !SameAccount(k, files[n])
  {
    var x, f := now[i], files[n];
    assert x in now && f in files;
    OverlapsBothWays(f, x);
    assert x in keys by {
      if x !in keys {
        EarlierFile(files, n, x);
      }
    }
    forall k | k in now
      ensures !SameAccount(k, f)
    {
      if SameAccount(k, f) {
        OverlapsBothWays(k, f);
        assert Overlaps(k, f) && Overlaps(k, x);
        if k in keys {
          SoundMembers(keys, k, x);
        } else {
          EarlierFile(files, n, k);
        }
      }
    }
  }

  lemma ReplacedLeavesAlone(keys: seq<VotingKey>, files: seq<VotingKey>, n: nat, now: seq<VotingKey>, i: nat)
    requires Sound(keys) && Separate(files) && n < |files| && Kept(keys, files, n, now)
    requires i < |now| && Overlaps(files[n], now[i]) && now[i] in keys
    ensures Alone(files, n + 1, RemoveAt(now, i) + [files[n]])
  {
    hide Spread;
    var f, x, rest := files[n], now[i], RemoveAt(now, i);
    NextFile(files, n);
    SpreadRemove(now, i);
    forall g, y | g in files[..n + 1] && g in rest + [f] && y in rest + [f] && OneEpoch(g) && Overlaps(g, y)
      ensures SameAccount(g, y)
    {
      PairAlone(keys, files, n, now, i, g, y);
    }
  }

  lemma PairAlone(keys: seq<VotingKey>, files: seq<VotingKey>, n: nat, now: seq<VotingKey>, i: nat,
                  g: VotingKey, y: VotingKey)
    requires Sound(keys) && Separate(files) && n < |files| && Kept(keys, files, n, now)
    requires i < |now| && Overlaps(files[n], now[i]) && now[i] in keys
    requires (g in files[..n] && g in now) || g == files[n]
    requires (y in now && Canon(y) != Canon(now[i])) || y == files[n]
    requires OneEpoch(g) && Overlaps(g, y)
    ensures SameAccount(g, y)
  {
    var f, x := files[n], now[i];
    OverlapsBothWays(g, y);
    if g in files[..n] && g in now {
      if y == f {
        EarlierFile(files, n, g);
      }
    } else if y != f {
      assert Proper(f) && Proper(x) by {
        assert f in files && x in keys;
      }
      if y in keys {
        SoundMembers(keys, x, y);
      } else {
        EarlierFile(files, n, y);
      }
    }
  }

  lemma AddedLeavesAlone(keys: seq<VotingKey>, files: seq<VotingKey>, n: nat, now: seq<VotingKey>)
    requires Sound(keys) && Separate(files) && n < |files| && Kept(keys, files, n, now)
    requires forall k | k in now :: !Overlaps(files[n], k)
    ensures Alone(files, n + 1, now + [files[n]])
  {
    var f := files[n];
    NextFile(files, n);
    forall g, y | g in files[..n + 1] && g in now + [f] && y in now + [f] && OneEpoch(g) && Overlaps(g, y)
      ensures SameAccount(g, y)
    {
      OverlapsBothWays(g, y);
      assert g in now ==> !Overlaps(f, g);
      assert y in now ==> !Overlaps(f, y);
    }
  }

  lemma SameLeavesAlone(keys: seq<VotingKey>, files: seq<VotingKey>, n: nat, now: seq<VotingKey>)
    requires Sound(keys) && Separate(files) && n < |files| && Kept(keys, files, n, now)
    ensures Alone(files, n + 1, now)
  {
    var f := files[n];
    NextFile(files, n);
    forall g, y | g in files[..n + 1] && g in now && y in now && OneEpoch(g) && Overlaps(g, y)
      ensures SameAccount(g, y)
    {
      if g !in files[..n] {
        OverlapsBothWays(g, y);
        if y in keys {
          SoundMembers(keys, g, y);
        } else {
          EarlierFile(files, n, y);
        }
      }
    }
  }

  lemma LinkNew(s: AccountKeys, keys: seq<VotingKey>, file: VotingKey)
    requires Spread(keys) && |keys| < MAX_VOTING_KEYS && s.voting == KeySet(keys)
    requires forall k | k in keys :: !SameAccount(k, file)
    ensures Apply(s, VotingLink(file, Link)) == Some(s.(voting := KeySet(keys + [file])))
    ensures Spread(keys + [file])
  {
    SpreadSize(keys);
    KeySetAdd(keys, file);
    forall i | 0 <= i < |keys|
      ensures Canon(keys[i]) != Canon(file)
    {
      assert keys[i] in keys;
      SameAccountIsCanon(keys[i], file);
    }
  }

  lemma UnlinkOld(s: AccountKeys, keys: seq<VotingKey>, i: nat)
    requires Spread(keys) && i < |keys| && s.voting == KeySet(keys)
    ensures Apply(s, VotingLink(keys[i], Unlink)) == Some(s.(voting := KeySet(RemoveAt(keys, i))))
    ensures Spread(RemoveAt(keys, i)) && forall k | k in RemoveAt(keys, i) :: k in keys
  {
    SpreadRemove(keys, i);
  }

  /** One file, in conflict with any number of linked keys: accepted by the chain, and it takes back no file. */
  lemma StepAccepted(s: AccountKeys, keys: seq<VotingKey>, files: seq<VotingKey>, n: nat, now: seq<VotingKey>,
                     confirmed: bool)
    requires Sound(keys) && Separate(files) && n < |files| && Kept(keys, files, n, now) && s.voting == KeySet(now)
    ensures var e := LinkStep(VotingPlan([], now), files[n], confirmed);
      && Kept(keys, files, n + 1, e.remaining)
      && ApplyAll(s, e.transactions) == Some(s.(voting := KeySet(e.remaining)))
      && NeverTakesBack(e.transactions)
      && forall t | t in e.transactions ::
           t.VotingLink? && if t.action == Link then t.key == files[n]
                            else t.key in keys && Overlaps(files[n], t.key) && !SameAccount(t.key, files[n])
  {
    hide Alone, Spread, SameAccount, Overlaps, Separate, KeySet, Sound;
    var f, i := files[n], FindOverlap(files[n], now);
    NextFile(files, n);
    if i == |now| {
      NothingInTheWay(f, now);
      if |now| < MAX_VOTING_KEYS {
        NotOverlappedNotSame(files, n, now);
        LinkNew(s, now, f);
        ApplySnoc(s, [], VotingLink(f, Link));
        AddedLeavesAlone(keys, files, n, now);
      } else {
        SameLeavesAlone(keys, files, n, now);
      }
    } else if SameAccount(now[i], f) || !confirmed {
      SameLeavesAlone(keys, files, n, now);
    } else {
      var rest := RemoveAt(now, i);
      ReplacedIsOld(keys, files, n, now, i);
      UnlinkOld(s, now, i);
      LinkNew(s.(voting := KeySet(rest)), rest, f);
      ApplySnoc(s, [], VotingLink(now[i], Unlink));
      ApplySnoc(s, [VotingLink(now[i], Unlink)], VotingLink(f, Link));
      ReplacedLeavesAlone(keys, files, n, now, i);
    }
  }

  lemma NotOverlappedNotSame(files: seq<VotingKey>, n: nat, now: seq<VotingKey>)
    requires Separate(files) && n < |files| && forall k | k in now :: !Overlaps(files[n], k)
    ensures forall k | k in now :: !SameAccount(k, files[n])
  {
    assert files[n] in files;
  }

  lemma TakesNothingBack(files: seq<VotingKey>, n: nat, x: VotingKey, g: VotingKey)
    requires Separate(files) && n < |files| && g in files[..n] && Overlaps(files[n], x) && !SameAccount(x, files[n])
    ensures Canon(g) != Canon(x)
  {
    SameAccountIsCanon(g, x);
    OverlapsBothWays(g, x);
    OverlapsBothWays(files[n], g);
    OverlapsBothWays(files[n], x);
    if SameAccount(g, x) {
      EarlierFile(files, n, g);
    }
  }

  /** The plan so far has been accepted, and takes back no file. */
  ghost predicate AcceptedSoFar(s: AccountKeys, keys: seq<VotingKey>, files: seq<VotingKey>, n: nat, p: VotingPlan)
    requires n <= |files|
  {
    && Kept(keys, files, n, p.remaining)
    && ApplyAll(s, p.transactions) == Some(s.(voting := KeySet(p.remaining)))
    && NeverTakesBack(p.transactions)
    && forall t | t in p.transactions :: t.VotingLink? && (t.action == Link ==> t.key in files[..n])
  }

  lemma NextAccepted(s: AccountKeys, keys: seq<VotingKey>, files: seq<VotingKey>, n: nat, p: VotingPlan,
                     confirmed: bool)
    requires Sound(keys) && Separate(files) && n < |files| && AcceptedSoFar(s, keys, files, n, p)
    ensures AcceptedSoFar(s, keys, files, n + 1, LinkStep(p, files[n], confirmed))
  {
    hide LinkStep, Kept, Separate, KeySet, Sound, NeverTakesBack, ApplyAll, SameAccount, Overlaps;
    var file := files[n];
    var e := LinkStep(VotingPlan([], p.remaining), file, confirmed);
    StepAccepted(s.(voting := KeySet(p.remaining)), keys, files, n, p.remaining, confirmed);
    LinkStepEmits(p, file, confirmed);
    ApplyConcat(s, p.transactions, e.transactions);
    NextFile(files, n);
    forall t, u | t in p.transactions && u in e.transactions && t.action == Link && u.action == Unlink
      ensures !SameKey(t, u)
    {
      TakesNothingBack(files, n, u.key, t.key);
    }
    NeverTakesBackConcat(p.transactions, e.transactions);
  }

  /** The whole second loop, files across several keys included. */
  lemma {:induction false} LinkFilesAccepted(s: AccountKeys, keys: seq<VotingKey>, files: seq<VotingKey>, n: nat,
                                             confirm: nat -> bool)
    requires Sound(keys) && |keys| <= MAX_VOTING_KEYS && Separate(files) && n <= |files| && s.voting == KeySet(keys)
    ensures AcceptedSoFar(s, keys, files, n, LinkFiles(VotingPlan([], keys), files, n, confirm))
  {
    hide LinkStep, AcceptedSoFar, Separate, Sound;
    if n == 0 {
      AcceptedAtFirst(s, keys, files);
    } else {
      LinkFilesAccepted(s, keys, files, n - 1, confirm);
      NextAccepted(s, keys, files, n - 1, LinkFiles(VotingPlan([], keys), files, n - 1, confirm), confirm(n - 1));
    }
  }

  lemma AcceptedAtFirst(s: AccountKeys, keys: seq<VotingKey>, files: seq<VotingKey>)
    requires Sound(keys) && |keys| <= MAX_VOTING_KEYS && s.voting == KeySet(keys)
    ensures AcceptedSoFar(s, keys, files, 0, VotingPlan([], keys))
  {
    KeptAtFirst(keys, files);
  }

  lemma KeptAtFirst(keys: seq<VotingKey>, files: seq<VotingKey>)
    requires Sound(keys) && |keys| <= MAX_VOTING_KEYS
    ensures Kept(keys, files, 0, keys)
  {
    SoundIsSpread(keys);
  }

  /** For disjoint files, and at most three disjoint linked keys in whatever conflict with them, under any
      answers: the chain accepts the whole voting plan as built and as announced, and ends with the keys the
      planner expects. */
  lemma {:induction false} SeparateIsAccepted(linked: seq<VotingKey>, files: seq<VotingKey>, epoch: int,
                                              answers: Answers)
    requires Sound(linked) && |linked| <= MAX_VOTING_KEYS && Separate(Active(files, epoch))
    ensures var s, p := AccountKeys(None, None, KeySet(linked)), LinkPlan(linked, files, epoch, answers);
      && ApplyAll(s, p.transactions) == Some(s.(voting := KeySet(p.remaining)))
      && ApplyAll(s, UnlinksFirst(p.transactions)) == ApplyAll(s, p.transactions)
      && |p.remaining| <= MAX_VOTING_KEYS
  {
    hide LinkStep, Separate, UnlinksFirst;
    var s := AccountKeys(None, None, KeySet(linked));
    var p := UnlinkExpired(linked, |linked|, epoch, answers.expired);
    var active := Active(files, epoch);
    ExpiredRun(s, linked, |linked|, epoch, answers.expired);
    ExpiredMembers(linked, |linked|, epoch, answers.expired);
    WorkingEnds(p.remaining, linked);
    LinkFilesEmits(p, active, |active|, answers.overlapping);
    LinkFilesAccepted(s.(voting := KeySet(p.remaining)), p.remaining, active, |active|, answers.overlapping);
    var e := LinkFiles(VotingPlan([], p.remaining), active, |active|, answers.overlapping);
    ApplyConcat(s, p.transactions, e.transactions);
    NeverTakesBackConcat(p.transactions, e.transactions);
    SortIsSafe(s, p.transactions + e.transactions);
  }

  // ----- files that are not separate -----

  lemma {:induction false} NothingConfirmed(linked: seq<VotingKey>, n: nat, epoch: int, confirm: nat -> bool)
    requires n <= |linked| && forall i | 0 <= i < n :: !confirm(i)
    ensures UnlinkExpired(linked, n, epoch, confirm) == VotingPlan([], linked[..n])
  {
    if n != 0 {
      NothingConfirmed(linked, n - 1, epoch, confirm);
      assert linked[..n] == linked[..n - 1] + [linked[n - 1]];
    }
  }

  /** Three linked keys, two of which share the epochs of the file. */
  function Halves(f: VotingKey, far: int): seq<VotingKey> {
    [VotingKey("", f.startEpoch, f.endEpoch - 1), VotingKey("", f.endEpoch, f.endEpoch), VotingKey("", far, far)]
  }

  lemma HalvesAreSound(f: VotingKey, far: int)
    requires f.startEpoch < f.endEpoch < far
    ensures Sound(Halves(f, far)) && |Halves(f, far)| == MAX_VOTING_KEYS
  {
    var linked := Halves(f, far);
    assert forall k | k in linked :: k == linked[0] || k == linked[1] || k == linked[2];
  }

  function AfterFirstHalf(f: VotingKey, far: int): VotingPlan {
    VotingPlan([VotingLink(Halves(f, far)[0], Unlink), VotingLink(f, Link)], Halves(f, far)[1..] + [f])
  }

  function AfterBothHalves(f: VotingKey, g: VotingKey, far: int): VotingPlan {
    VotingPlan([VotingLink(Halves(f, far)[0], Unlink), VotingLink(f, Link),
                VotingLink(Halves(f, far)[1], Unlink), VotingLink(g, Link)], Halves(f, far)[2..] + [f] + [g])
  }

  lemma FirstHalfReplaced(f: VotingKey, far: int)
    requires f.startEpoch < f.endEpoch < far
    ensures LinkStep(VotingPlan([], Halves(f, far)), f, true) == AfterFirstHalf(f, far)
    ensures |AfterFirstHalf(f, far).remaining| == MAX_VOTING_KEYS
  {
    Replaces(VotingPlan([], Halves(f, far)), f, 0);
    assert RemoveAt(Halves(f, far), 0) == Halves(f, far)[1..];
  }

  lemma SecondHalfReplaced(f: VotingKey, g: VotingKey, far: int)
    requires f.startEpoch < f.endEpoch < far && SameAccount(f, g)
    ensures LinkStep(AfterFirstHalf(f, far), g, true) == AfterBothHalves(f, g, far)
    ensures |AfterBothHalves(f, g, far).remaining| == MAX_VOTING_KEYS
  {
    var p := AfterFirstHalf(f, far);
    assert p.remaining[0] == Halves(f, far)[1];
    Replaces(p, g, 0);
    assert RemoveAt(p.remaining, 0) == Halves(f, far)[2..] + [f];
  }

  lemma HalvesFiles(active: seq<VotingKey>, i: nat, j: nat, far: int)
    requires i < j < |active| && SameAccount(active[i], active[j])
    requires active[i].startEpoch < active[i].endEpoch < far
    ensures LinkFiles(VotingPlan([], Halves(active[i], far)), active, |active|, Only(i, j).overlapping)
         == AfterBothHalves(active[i], active[j], far)
  {
    hide LinkStep, LinkFiles, SameAccount, Halves, AfterFirstHalf, AfterBothHalves;
    var f, g, confirm := active[i], active[j], Only(i, j).overlapping;
    var p := VotingPlan([], Halves(f, far));
    HalvesAreSound(f, far);
    FirstHalfReplaced(f, far);
    SecondHalfReplaced(f, g, far);
    NoFilesYet(p, active, confirm);
    IdleThenStep(p, active, 0, i, confirm);
    IdleThenStep(p, active, i + 1, j, confirm);
    FullFilesIdle(p, active, j + 1, |active|, confirm);
  }

  /** Links of one account in the two spellings of its files: the second is refused. */
  lemma LinkedTwice(x: VotingKey, y: VotingKey, f: VotingKey, g: VotingKey, voting: set<VotingKey>)
    requires Canon(f) == Canon(g)
    ensures var txs := [VotingLink(x, Unlink), VotingLink(f, Link), VotingLink(y, Unlink), VotingLink(g, Link)];
      ApplyAll(AccountKeys(None, None, voting), UnlinksFirst(txs)).None?
  {
    var txs := [VotingLink(x, Unlink), VotingLink(f, Link), VotingLink(y, Unlink), VotingLink(g, Link)];
    var us, ls := [VotingLink(x, Unlink), VotingLink(y, Unlink)], [VotingLink(f, Link), VotingLink(g, Link)];
    assert txs == [txs[0]] + [txs[1]] + [txs[2]] + [txs[3]];
    forall action: LinkAction
      ensures OfAction(txs, action) == if action == Unlink then us else ls
    {
      OfActionConcat([txs[0]] + [txs[1]] + [txs[2]], [txs[3]], action);
      OfActionConcat([txs[0]] + [txs[1]], [txs[2]], action);
      OfActionConcat([txs[0]], [txs[1]], action);
    }
    ApplyConcat(AccountKeys(None, None, voting), us, ls);
    if ApplyAll(AccountKeys(None, None, voting), us).Some? {
      var s := ApplyAll(AccountKeys(None, None, voting), us).value;
      assert ls[1..] == [VotingLink(g, Link)];
      assert Apply(s, ls[0]).Some? ==> Apply(Apply(s, ls[0]).value, ls[1]).None?;
    }
  }

  /** A file of several epochs listed twice: with two keys that share these epochs linked, each listing replaces
      one of them. */
  lemma TwiceRefused(files: seq<VotingKey>, epoch: int, i: nat, j: nat) returns (linked: seq<VotingKey>,
      answers: Answers)
    requires AllProper(files) && i < j < |Active(files, epoch)|
    requires SameAccount(Active(files, epoch)[i], Active(files, epoch)[j]) && !OneEpoch(Active(files, epoch)[i])
    ensures Sound(linked) && |linked| <= MAX_VOTING_KEYS && !AnnouncedSafely(linked, files, epoch, answers)
  {
    hide LinkFiles, UnlinksFirst, ApplyAll, SameAccount, Beyond;
    var active := Active(files, epoch);
    var f, g, far := active[i], active[j], Beyond(active, epoch);
    ActiveMembers(files, epoch);
    BeyondAll(active, epoch);
    assert f in active;
    assert f.startEpoch < f.endEpoch < far;
    linked, answers := Halves(f, far), Only(i, j);
    HalvesAreSound(f, far);
    NothingConfirmed(linked, 3, epoch, answers.expired);
    assert linked[..3] == linked;
    HalvesFiles(active, i, j, far);
    SameAccountIsCanon(f, g);
    LinkedTwice(linked[0], linked[1], f, g, KeySet(linked));
  }

  /** Whatever disjoint keys are linked, at most three of them, and whatever is answered: the plans for these
      files are announced safely exactly when unexpired files are disjoint, but for one of a single epoch that
      is listed again. */
  lemma {:induction false} AllListingsSafeExactlyWhen(files: seq<VotingKey>, epoch: int)
    requires AllProper(files)
    ensures (forall linked, answers | Sound(linked) && |linked| <= MAX_VOTING_KEYS ::
               AnnouncedSafely(linked, files, epoch, answers))
        <==> Separate(Active(files, epoch))
  {
    hide AnnouncedSafely, Sound, SameAccount, Overlaps;
    var active := Active(files, epoch);
    ActiveMembers(files, epoch);
    if Separate(active) {
      forall linked, answers | Sound(linked) && |linked| <= MAX_VOTING_KEYS
        ensures AnnouncedSafely(linked, files, epoch, answers)
      {
        SeparateIsSafe(linked, files, epoch, answers);
      }
    } else {
      var i, j :| 0 <= i < j < |active| && Overlaps(active[i], active[j])
                  && !(SameAccount(active[i], active[j]) && OneEpoch(active[i]));
      if SameAccount(active[i], active[j]) {
        var linked, answers := TwiceRefused(files, epoch, i, j);
      } else {
        var linked, answers := Refused(files, epoch, i, j);
      }
    }
  }

  lemma SeparateIsSafe(linked: seq<VotingKey>, files: seq<VotingKey>, epoch: int, answers: Answers)
    requires Sound(linked) && |linked| <= MAX_VOTING_KEYS && Separate(Active(files, epoch))
    ensures AnnouncedSafely(linked, files, epoch, answers)
  {
    hide LinkPlan, UnlinksFirst, ApplyAll;
    SeparateIsAccepted(linked, files, epoch, answers);
  }
}
