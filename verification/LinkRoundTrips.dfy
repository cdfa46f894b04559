/** Planning again: what a second plan does once the first one is on chain. */
module LinkRoundTrips {
  import opened Basics
  import opened VotingKeys
  import opened AccountChain
  import opened LinkPlanner
  import opened LinkPlanLaws

  /** A view of the chain: every linked key once, in any order and any spelling. */
  ghost predicate Lists(keys: seq<VotingKey>, chain: set<VotingKey>) {
    KeySet(keys) == chain && |keys| == |chain|
  }

  lemma {:induction false} KeySetBound(keys: seq<VotingKey>)
    ensures |KeySet(keys)| <= |keys|
  {
    if |keys| != 0 {
      var init, last := keys[..|keys| - 1], keys[|keys| - 1];
      assert init + [last] == keys;
      KeySetBound(init);
      KeySetAdd(init, last);
    }
  }

  lemma {:induction false} ListedOnce(keys: seq<VotingKey>, i: nat, j: nat)
    requires |KeySet(keys)| == |keys| && i < j < |keys|
    ensures Canon(keys[i]) != Canon(keys[j])
  {
    var init, last := keys[..|keys| - 1], keys[|keys| - 1];
    assert init + [last] == keys;
    KeySetBound(init);
    KeySetAdd(init, last);
    if j < |init| {
      ListedOnce(init, i, j);
    } else {
      assert init[i] in init;
    }
  }

  lemma {:induction false} ListingIsSound(keys: seq<VotingKey>, sound: seq<VotingKey>)
    requires Sound(sound) && Lists(keys, KeySet(sound))
    ensures Sound(keys) && |keys| == |sound|
  {
    KeySetSize(sound);
    forall i, j | 0 <= i < j < |keys|
      ensures !Overlaps(keys[i], keys[j])
    {
      ListedOnce(keys, i, j);
      var a := Listed(keys, i, sound);
      var b := Listed(keys, j, sound);
      SoundMembers(sound, a, b);
    }
    forall k | k in keys
      ensures Proper(k)
    {
      var i :| 0 <= i < |keys| && keys[i] == k;
      var a := Listed(keys, i, sound);
    }
  }

  /** The key of `other` that stands behind the i-th listed key. */
  lemma Listed(keys: seq<VotingKey>, i: nat, other: seq<VotingKey>) returns (k: VotingKey)
    requires i < |keys| && KeySet(keys) <= KeySet(other)
    ensures k in other && Canon(k) == Canon(keys[i])
  {
    assert Canon(keys[i]) in KeySet(keys);
    k :| k in other && Canon(k) == Canon(keys[i]);
  }

  lemma {:induction false} NoneExpired(linked: seq<VotingKey>, n: nat, epoch: int, confirm: nat -> bool)
    requires n <= |linked| && forall k | k in linked :: k.endEpoch >= epoch
    ensures UnlinkExpired(linked, n, epoch, confirm) == VotingPlan([], linked[..n])
  {
    if n != 0 {
      NoneExpired(linked, n - 1, epoch, confirm);
      assert linked[..n] == linked[..n - 1] + [linked[n - 1]];
    }
  }

  /** The planner has nothing to do for the file. */
  predicate InPlace(file: VotingKey, keys: seq<VotingKey>) {
    var i := FindOverlap(file, keys);
    if i == |keys| then |keys| >= MAX_VOTING_KEYS else SameAccount(keys[i], file)
  }

  lemma {:induction false} NothingToDo(keys: seq<VotingKey>, files: seq<VotingKey>, n: nat, confirm: nat -> bool)
    requires n <= |files| && forall f | f in files :: InPlace(f, keys)
    ensures LinkFiles(VotingPlan([], keys), files, n, confirm) == VotingPlan([], keys)
  {
    if n != 0 {
      NothingToDo(keys, files, n - 1, confirm);
      assert files[n - 1] in files;
    }
  }

  /** In any listing of keys where the file is settled, and at most one key is in its way, the file
      is in place. */
  lemma SettledIsInPlace(file: VotingKey, keys: seq<VotingKey>, relisted: seq<VotingKey>)
    requires Proper(file) && Settled(file, keys) && AtMostOneInTheWay(file, keys)
    requires Sound(keys) && Lists(relisted, KeySet(keys))
    ensures InPlace(file, relisted)
  {
    var i := FindOverlap(file, relisted);
    ListingIsSound(relisted, keys);
    if i < |relisted| {
      var k := Listed(relisted, i, keys);
    } else if same :| same in keys && SameAccount(same, file) {
      assert Canon(same) in KeySet(relisted);
      var j := KeySetMember(relisted, Canon(same));
    }
  }

  /** The keys left by a confirmed link plan: all unexpired, every active file settled, and at most
      one of them in the way of each active file. */
  lemma {:induction false} ConfirmedPlanSettles(linked: seq<VotingKey>, files: seq<VotingKey>, epoch: int,
                                                answers: Answers)
    requires Plannable(linked, files, epoch) && AllConfirmed(answers)
    ensures var keys := LinkPlan(linked, files, epoch, answers).remaining;
      && (forall k | k in keys :: k.endEpoch >= epoch)
      && (forall f | f in Active(files, epoch) :: Proper(f) && Settled(f, keys) && AtMostOneInTheWay(f, keys))
  {
    hide LinkStep;
    var kept := UnlinkExpired(linked, |linked|, epoch, answers.expired).remaining;
    var active := Active(files, epoch);
    ExpiredMembers(linked, |linked|, epoch, answers.expired);
    ActiveMembers(files, epoch);
    KeptIsLinkable(linked, files, epoch, answers.expired);
    LinkFilesEmits(UnlinkExpired(linked, |linked|, epoch, answers.expired), active, |active|, answers.overlapping);
    LinkFilesMembers(kept, active, |active|, answers.overlapping);
    LinkFilesSettle(kept, active, |active|, answers.overlapping);
    assert active[..|active|] == active;
    forall f | f in active
      ensures AtMostOneInTheWay(f, LinkPlan(linked, files, epoch, answers).remaining)
    {
      OneInTheWayAtTheEnd(kept, active, LinkPlan(linked, files, epoch, answers).remaining, f);
    }
  }

  lemma OneInTheWayAtTheEnd(kept: seq<VotingKey>, active: seq<VotingKey>, keys: seq<VotingKey>, f: VotingKey)
    requires Linkable(kept, active) && f in active && Sound(keys)
    requires forall k | k in keys :: k in kept || k in active
    ensures AtMostOneInTheWay(f, keys)
  {
    forall a, b | a in keys && b in keys && Overlaps(f, a) && Overlaps(f, b)
      ensures a == b
    {
      SoundMembers(keys, a, b);
    }
  }

  /** Re-planning is a no-op: once a confirmed link plan is on chain, planning again at the same epoch
      gives no transaction, however the chain lists its keys and whatever is answered. */
  lemma {:induction false} ReplanIsEmpty(linked: seq<VotingKey>, files: seq<VotingKey>, epoch: int,
                                         answers: Answers, relisted: seq<VotingKey>, again: Answers)
    requires Plannable(linked, files, epoch) && AllConfirmed(answers)
    requires Lists(relisted, KeySet(LinkPlan(linked, files, epoch, answers).remaining))
    ensures LinkPlan(relisted, files, epoch, again) == VotingPlan([], relisted)
  {
    hide LinkPlan, Lists, InPlace;
    var keys := LinkPlan(linked, files, epoch, answers).remaining;
    LinkPlanRun(AccountKeys(None, None, KeySet(linked)), linked, files, epoch, answers);
    ConfirmedPlanSettles(linked, files, epoch, answers);
    forall f | f in Active(files, epoch)
      ensures InPlace(f, relisted)
    {
      SettledIsInPlace(f, keys, relisted);
    }
    RelistedUnexpired(keys, relisted, epoch);
    InPlacePlan(relisted, files, epoch, again);
  }

  lemma RelistedUnexpired(keys: seq<VotingKey>, relisted: seq<VotingKey>, epoch: int)
    requires Lists(relisted, KeySet(keys)) && forall k | k in keys :: k.endEpoch >= epoch
    ensures forall k | k in relisted :: k.endEpoch >= epoch
  {
    forall k | k in relisted
      ensures k.endEpoch >= epoch
    {
      var i :| 0 <= i < |relisted| && relisted[i] == k;
      var other := Listed(relisted, i, keys);
    }
  }

  lemma InPlacePlan(keys: seq<VotingKey>, files: seq<VotingKey>, epoch: int, answers: Answers)
    requires forall k | k in keys :: k.endEpoch >= epoch
    requires forall f | f in Active(files, epoch) :: InPlace(f, keys)
    ensures LinkPlan(keys, files, epoch, answers) == VotingPlan([], keys)
  {
    hide InPlace, LinkStep;
    NoneExpired(keys, |keys|, epoch, answers.expired);
    assert keys[..|keys|] == keys;
    NothingToDo(keys, Active(files, epoch), |Active(files, epoch)|, answers.overlapping);
  }

  /** Link then unlink restores the account: from unexpired keys that no file touches, a confirmed
      link plan followed by a confirmed unlink plan leaves exactly the keys there were before. */
  lemma {:induction false} LinkThenUnlinkRestores(linked: seq<VotingKey>, files: seq<VotingKey>, epoch: int,
                                                  answers: Answers, relisted: seq<VotingKey>, again: Answers)
    requires Sound(linked) && |linked| <= MAX_VOTING_KEYS && AllProper(files) && Coherent(Active(files, epoch))
    requires forall k | k in linked :: k.endEpoch >= epoch
    requires forall f, k | f in files && k in linked :: !Overlaps(f, k)
    requires AllConfirmed(answers) && AllConfirmed(again)
    requires Lists(relisted, KeySet(LinkPlan(linked, files, epoch, answers).remaining))
    ensures KeySet(UnlinkPlan(relisted, files, again).remaining) == KeySet(linked)
  {
    hide LinkStep, Lists;
    var keys := LinkPlan(linked, files, epoch, answers).remaining;
    ActiveMembers(files, epoch);
    LinkPlanRun(AccountKeys(None, None, KeySet(linked)), linked, files, epoch, answers);
    UntouchedStay(linked, files, epoch, answers);
    ListingIsSound(relisted, keys);
    UnlinkRemovesConfigured(relisted, files, |files|, again.overlapping);
    var left := UnlinkPlan(relisted, files, again).remaining;
    forall k | k in left
      ensures Canon(k) in KeySet(linked)
    {
      var i :| 0 <= i < |relisted| && relisted[i] == k;
      var other := ListedIn(relisted, i, keys);
      forall f | f in files
        ensures !SameAccount(k, f)
      {
        var j :| 0 <= j < |files| && files[j] == f;
      }
    }
    forall k | k in linked
      ensures Canon(k) in KeySet(left)
    {
      assert Canon(k) in KeySet(keys);
      var i := MemberIn(relisted, keys, k);
      forall j | 0 <= j < |files|
        ensures !SameAccount(relisted[i], files[j])
      {
        assert files[j] in files && !Overlaps(files[j], k);
      }
      assert !Configured(relisted[i], files, |files|);
      assert relisted[i] in left;
    }
  }

  lemma ListedIn(keys: seq<VotingKey>, i: nat, other: seq<VotingKey>) returns (k: VotingKey)
    requires i < |keys| && Lists(keys, KeySet(other))
    ensures k in other && SameAccount(k, keys[i])
  {
    k := Listed(keys, i, other);
  }

  lemma MemberIn(keys: seq<VotingKey>, other: seq<VotingKey>, k: VotingKey) returns (i: nat)
    requires Lists(keys, KeySet(other)) && k in other
    ensures i < |keys| && Canon(keys[i]) == Canon(k)
  {
    assert Canon(k) in KeySet(other);
    i := KeySetMember(keys, Canon(k));
  }

  /** Keys that are unexpired and touched by no file survive the link plan; everything else linked
      afterwards is a file. */
  lemma {:induction false} UntouchedStay(linked: seq<VotingKey>, files: seq<VotingKey>, epoch: int, answers: Answers)
    requires Sound(linked) && |linked| <= MAX_VOTING_KEYS && AllProper(files) && Coherent(Active(files, epoch))
    requires forall k | k in linked :: k.endEpoch >= epoch
    requires forall f, k | f in files && k in linked :: !Overlaps(f, k)
    ensures var keys := LinkPlan(linked, files, epoch, answers).remaining;
      && (forall k | k in linked :: k in keys)
      && (forall k | k in keys :: k in linked || k in files)
  {
    hide LinkStep;
    var active := Active(files, epoch);
    ActiveMembers(files, epoch);
    NoneExpired(linked, |linked|, epoch, answers.expired);
    assert linked[..|linked|] == linked;
    KeptIsLinkable(linked, files, epoch, answers.expired);
    LinkFilesMembers(linked, active, |active|, answers.overlapping);
    UntouchedStayLinked(linked, active, |active|, answers.overlapping);
  }

  lemma {:induction false} UntouchedStayLinked(keys: seq<VotingKey>, files: seq<VotingKey>, n: nat,
                                               confirm: nat -> bool)
    requires Linkable(keys, files) && n <= |files|
    requires forall f, k | f in files && k in keys :: !Overlaps(f, k)
    ensures forall k | k in keys :: k in LinkFiles(VotingPlan([], keys), files, n, confirm).remaining
  {
    hide LinkStep;
    if n != 0 {
      UntouchedStayLinked(keys, files, n - 1, confirm);
      LinkFilesMembers(keys, files, n - 1, confirm);
      var p := LinkFiles(VotingPlan([], keys), files, n - 1, confirm);
      LinkStepMembers(p.remaining, files[n - 1], confirm(n - 1));
      LinkStepEmits(p, files[n - 1], confirm(n - 1));
      assert files[n - 1] in files;
    }
  }
}
