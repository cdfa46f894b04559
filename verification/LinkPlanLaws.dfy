/** Laws of the voting-key plans: what the chain makes of them, in whatever order they are announced. */
module LinkPlanLaws {
  import opened Basics
  import opened VotingKeys
  import opened AccountChain
  import opened LinkPlanner

  /** The situation the planner is made for: at most three sound linked keys, unexpired files that overlap
      only when they are the same account, and none of them in conflict with two linked keys at once. */
  ghost predicate Plannable(linked: seq<VotingKey>, files: seq<VotingKey>, epoch: int) {
    FitsFiles(linked, files, epoch) && Coherent(Active(files, epoch))
  }

  ghost predicate FitsFiles(linked: seq<VotingKey>, files: seq<VotingKey>, epoch: int) {
    && Sound(linked) && |linked| <= MAX_VOTING_KEYS
    && forall f | f in Active(files, epoch) :: AtMostOneInTheWay(f, linked)
  }

  lemma {:induction false} ActiveMembers(files: seq<VotingKey>, epoch: int)
    ensures forall f :: f in Active(files, epoch) <==> f in files && f.endEpoch >= epoch
    ensures Sound(files) ==> Sound(Active(files, epoch))
  {
    if |files| != 0 {
      var rest := files[1..];
      ActiveMembers(rest, epoch);
      assert files == [files[0]] + rest;
      if Sound(files) {
        forall f | f in Active(rest, epoch)
          ensures !Overlaps(files[0], f)
        {
          var i :| 0 <= i < |rest| && rest[i] == f;
          assert files[i + 1] == f;
        }
      }
    }
  }

  lemma ApplySnoc(s: AccountKeys, txs: seq<Transaction>, t: Transaction)
    ensures ApplyAll(s, txs + [t]) == match ApplyAll(s, txs) case None => None case Some(next) => Apply(next, t)
  {
    ApplyConcat(s, txs, [t]);
    if ApplyAll(s, txs).Some? {
      var next := ApplyAll(s, txs).value;
      assert [t][1..] == [];
    }
  }

  lemma UnlinkOne(s: AccountKeys, keys: seq<VotingKey>, i: nat)
    requires Sound(keys) && i < |keys| && s.voting == KeySet(keys)
    ensures Apply(s, VotingLink(keys[i], Unlink)) == Some(s.(voting := KeySet(RemoveAt(keys, i))))
    ensures Sound(RemoveAt(keys, i))
  {
    KeySetRemove(keys, i);
  }

  lemma LinkOne(s: AccountKeys, keys: seq<VotingKey>, file: VotingKey)
    requires Sound(keys) && |keys| < MAX_VOTING_KEYS && s.voting == KeySet(keys)
    requires Proper(file) && forall k | k in keys :: !Overlaps(file, k)
    ensures Apply(s, VotingLink(file, Link)) == Some(s.(voting := KeySet(keys + [file])))
    ensures Sound(keys + [file])
  {
    KeySetSize(keys);
    KeySetAdd(keys, file);
    SoundAppend(keys, file);
  }

  /** The first loop, from an account linked to the listed keys, is accepted by the chain. */
  lemma {:induction false} ExpiredRun(s: AccountKeys, linked: seq<VotingKey>, n: nat, epoch: int, confirm: nat -> bool)
    requires n <= |linked| && Sound(linked) && s.voting == KeySet(linked)
    ensures var p := UnlinkExpired(linked, n, epoch, confirm);
      && Sound(Working(p.remaining, linked, n))
      && ApplyAll(s, p.transactions) == Some(s.(voting := KeySet(Working(p.remaining, linked, n))))
  {
    hide Working, RemoveAt;
    WorkingEnds([], linked);
    if n != 0 {
      var p := UnlinkExpired(linked, n - 1, epoch, confirm);
      var key := linked[n - 1];
      ExpiredRun(s, linked, n - 1, epoch, confirm);
      WorkingNext(p.remaining, linked, n - 1);
      if key.endEpoch < epoch && confirm(n - 1) {
        var whole := Working(p.remaining, linked, n - 1);
        UnlinkOne(s.(voting := KeySet(whole)), whole, |p.remaining|);
        ApplySnoc(s, p.transactions, VotingLink(key, Unlink));
      }
    }
  }

  /** What the first loop leaves: everything but the expired keys, when each unlink is confirmed. */
  lemma {:induction false} ExpiredMembers(linked: seq<VotingKey>, n: nat, epoch: int, confirm: nat -> bool)
    requires n <= |linked|
    ensures var p := UnlinkExpired(linked, n, epoch, confirm);
      && |p.remaining| <= n
      && (forall t | t in p.transactions :: t.VotingLink? && t.action == Unlink)
      && (forall k | k in p.remaining :: k in linked[..n])
      && (forall k | k in linked[..n] && k.endEpoch >= epoch :: k in p.remaining)
      && ((forall i :: confirm(i)) ==> forall k | k in p.remaining :: k.endEpoch >= epoch)
  {
    if n != 0 {
      ExpiredMembers(linked, n - 1, epoch, confirm);
      assert linked[..n] == linked[..n - 1] + [linked[n - 1]];
    }
  }

  /** Exactly what the first loop does, key by key and answer by answer: of each key asked about, the unlink is
      planned if it has expired and its own answer is yes, and else it stays; both in the order of the keys. */
  lemma {:induction false} ExpiredExactly(linked: seq<VotingKey>, n: nat, epoch: int, confirm: nat -> bool)
    requires n <= |linked| && forall i, j | 0 <= i < j < |linked| :: linked[i] != linked[j]
    ensures var p := UnlinkExpired(linked, n, epoch, confirm);
      && (forall k | k in p.remaining :: k in linked[..n])
      && (forall t | t in p.transactions :: t.VotingLink? && t.action == Unlink && t.key in linked[..n])
      && (forall i | 0 <= i < n :: linked[i] in p.remaining <==> linked[i].endEpoch >= epoch || !confirm(i))
      && (forall i | 0 <= i < n ::
            VotingLink(linked[i], Unlink) in p.transactions <==> linked[i].endEpoch < epoch && confirm(i))
      && |p.transactions| + |p.remaining| == n
  {
    KeptExactly(linked, n, epoch, confirm);
    UnlinkedExactly(linked, n, epoch, confirm);
  }

  lemma {:induction false} KeptExactly(linked: seq<VotingKey>, n: nat, epoch: int, confirm: nat -> bool)
    requires n <= |linked| && forall i, j | 0 <= i < j < |linked| :: linked[i] != linked[j]
    ensures forall k | k in UnlinkExpired(linked, n, epoch, confirm).remaining :: k in linked[..n]
    ensures forall i | 0 <= i < n ::
      linked[i] in UnlinkExpired(linked, n, epoch, confirm).remaining <==> linked[i].endEpoch >= epoch || !confirm(i)
  {
    hide UnlinkExpired;
    if n != 0 {
      KeptExactly(linked, n - 1, epoch, confirm);
      ExpiredStep(linked, n, epoch, confirm);
      assert linked[..n] == linked[..n - 1] + [linked[n - 1]];
      assert linked[n - 1] !in linked[..n - 1];
    } else {
      NothingExpired(linked, epoch, confirm);
    }
  }

  lemma {:induction false} UnlinkedExactly(linked: seq<VotingKey>, n: nat, epoch: int, confirm: nat -> bool)
    requires n <= |linked| && forall i, j | 0 <= i < j < |linked| :: linked[i] != linked[j]
    ensures var p := UnlinkExpired(linked, n, epoch, confirm);
      && (forall t | t in p.transactions :: t.VotingLink? && t.action == Unlink && t.key in linked[..n])
      && (forall i | 0 <= i < n ::
            VotingLink(linked[i], Unlink) in p.transactions <==> linked[i].endEpoch < epoch && confirm(i))
      && |p.transactions| + |p.remaining| == n
  {
    hide UnlinkExpired;
    if n != 0 {
      UnlinkedExactly(linked, n - 1, epoch, confirm);
      ExpiredStep(linked, n, epoch, confirm);
      assert linked[..n] == linked[..n - 1] + [linked[n - 1]];
      assert linked[n - 1] !in linked[..n - 1];
    } else {
      NothingExpired(linked, epoch, confirm);
    }
  }

  lemma NothingExpired(linked: seq<VotingKey>, epoch: int, confirm: nat -> bool)
    ensures UnlinkExpired(linked, 0, epoch, confirm) == VotingPlan([], [])
  {
  }

  lemma ExpiredStep(linked: seq<VotingKey>, n: nat, epoch: int, confirm: nat -> bool)
    requires 0 < n <= |linked|
    ensures var before, p := UnlinkExpired(linked, n - 1, epoch, confirm), UnlinkExpired(linked, n, epoch, confirm);
      && before.transactions <= p.transactions && before.remaining <= p.remaining
      && (linked[n - 1].endEpoch < epoch && confirm(n - 1) ==>
            p.transactions == before.transactions + [VotingLink(linked[n - 1], Unlink)]
            && p.remaining == before.remaining)
      && (linked[n - 1].endEpoch >= epoch || !confirm(n - 1) ==>
            p.transactions == before.transactions && p.remaining == before.remaining + [linked[n - 1]])
  {
  }

  /** A file that needs nothing more: linked as it is, or kept out by three keys it does not touch. */
  ghost predicate Settled(file: VotingKey, keys: seq<VotingKey>) {
    || (exists k :: k in keys && SameAccount(k, file))
    || (|keys| >= MAX_VOTING_KEYS && forall k | k in keys :: !Overlaps(file, k))
  }

  lemma LinkStepEmits(p: VotingPlan, file: VotingKey, confirmed: bool)
    ensures var e := LinkStep(VotingPlan([], p.remaining), file, confirmed);
      LinkStep(p, file, confirmed) == VotingPlan(p.transactions + e.transactions, e.remaining)
  {
  }

  /** One round of the second loop, for a file in conflict with at most one linked key. */
  lemma {:induction false} LinkStepRun(s: AccountKeys, keys: seq<VotingKey>, file: VotingKey, confirmed: bool)
    requires Sound(keys) && |keys| <= MAX_VOTING_KEYS && Proper(file) && s.voting == KeySet(keys)
    requires AtMostOneInTheWay(file, keys)
    ensures var e := LinkStep(VotingPlan([], keys), file, confirmed);
      && Sound(e.remaining)
      && ApplyAll(s, e.transactions) == Some(s.(voting := KeySet(e.remaining)))
  {
    var i := FindOverlap(file, keys);
    if i == |keys| {
      NothingInTheWay(file, keys);
      if |keys| < MAX_VOTING_KEYS {
        LinkOne(s, keys, file);
        ApplySnoc(s, [], VotingLink(file, Link));
      }
    } else if !SameAccount(keys[i], file) && confirmed {
      var rest := RemoveAt(keys, i);
      UnlinkOne(s, keys, i);
      KeySetRemove(keys, i);
      OnlyOneInTheWay(file, keys, i);
      LinkOne(s.(voting := KeySet(rest)), rest, file);
      ApplySnoc(s, [], VotingLink(keys[i], Unlink));
      ApplySnoc(s, [VotingLink(keys[i], Unlink)], VotingLink(file, Link));
    }
  }

  ghost predicate AtMostOneInTheWay(file: VotingKey, keys: seq<VotingKey>) {
    forall a, b | a in keys && b in keys && Overlaps(file, a) && Overlaps(file, b) :: a == b
  }

  lemma NothingInTheWay(file: VotingKey, keys: seq<VotingKey>)
    requires FindOverlap(file, keys) == |keys|
    ensures forall k | k in keys :: !Overlaps(file, k)
  {
  }

  lemma OnlyOneInTheWay(file: VotingKey, keys: seq<VotingKey>, i: nat)
    requires Sound(keys) && i < |keys| && Overlaps(file, keys[i])
    requires AtMostOneInTheWay(file, keys)
    ensures forall k | k in RemoveAt(keys, i) :: !Overlaps(file, k)
  {
    KeySetRemove(keys, i);
  }

  /** What one round changes: only the file comes in, only a key it overlaps goes out, the number of
      linked keys never drops, and a confirmed round settles the file. */
  lemma {:induction false} LinkStepMembers(keys: seq<VotingKey>, file: VotingKey, confirmed: bool)
    requires Sound(keys) && |keys| <= MAX_VOTING_KEYS
    ensures var e := LinkStep(VotingPlan([], keys), file, confirmed);
      && |keys| <= |e.remaining| <= MAX_VOTING_KEYS
      && (forall k | k in e.remaining :: k in keys || k == file)
      && (forall k | k in keys && !Overlaps(k, file) :: k in e.remaining)
      && (forall t | t in e.transactions :: t.VotingLink? && if t.action == Link then t.key == file
                                                      else Overlaps(t.key, file) && !SameAccount(t.key, file))
      && (confirmed ==> Settled(file, e.remaining))
  {
    var i := FindOverlap(file, keys);
    assert SameAccount(file, file);
    if i < |keys| {
      assert keys[i] in keys;
      KeySetRemove(keys, i);
      assert (RemoveAt(keys, i) + [file])[|keys| - 1] == file;
    } else {
      NothingInTheWay(file, keys);
      assert (keys + [file])[|keys|] == file;
    }
  }

  // ----- the second loop as a whole, from `keys`: what is left of the linked keys -----

  /** One round for any file and any keys, by the first key in its way, if there is one: a free file is linked while
      there are fewer than three keys; a file that is linked already, or whose key in the way is to stay, changes
      nothing; otherwise that one key is unlinked and the file linked if the others are fewer than three. */
  lemma {:induction false} LinkStepExactly(p: VotingPlan, file: VotingKey, confirmed: bool, i: nat)
    requires i <= |p.remaining| && forall j | 0 <= j < i :: !Overlaps(file, p.remaining[j])
    requires i < |p.remaining| ==> Overlaps(file, p.remaining[i])
    ensures var keys, after := p.remaining, LinkStep(p, file, confirmed);
      && (i == |keys| && |keys| < 3 ==> after == VotingPlan(p.transactions + [VotingLink(file, Link)], keys + [file]))
      && (i == |keys| && |keys| >= 3 ==> after == p)
      && (i < |keys| && (SameAccount(keys[i], file) || !confirmed) ==> after == p)
      && (i < |keys| && !SameAccount(keys[i], file) && confirmed ==>
            if |keys| <= 3
            then after == VotingPlan(p.transactions + [VotingLink(keys[i], Unlink), VotingLink(file, Link)],
                                     keys[..i] + keys[i + 1..] + [file])
            else after == VotingPlan(p.transactions + [VotingLink(keys[i], Unlink)], keys[..i] + keys[i + 1..]))
  {
    FirstOverlapIs(file, p.remaining, i);
    assert i < |p.remaining| ==>
        p.transactions + [VotingLink(p.remaining[i], Unlink)] + [VotingLink(file, Link)]
        == p.transactions + [VotingLink(p.remaining[i], Unlink), VotingLink(file, Link)];
  }

  lemma {:induction false} FirstOverlapIs(file: VotingKey, keys: seq<VotingKey>, i: nat)
    requires i <= |keys| && forall j | 0 <= j < i :: !Overlaps(file, keys[j])
    requires i < |keys| ==> Overlaps(file, keys[i])
    ensures FindOverlap(file, keys) == i
  {
  }

  /** The rounds answer for answer, and at most three keys after each of them. */
  lemma {:induction false} RoomForThree(p: VotingPlan, files: seq<VotingKey>, n: nat, confirm: nat -> bool)
    requires n <= |files| && |p.remaining| <= 3
    ensures |LinkFiles(p, files, n, confirm).remaining| <= 3
    ensures LinkFiles(p, files, 0, confirm) == p
    ensures n > 0 ==> LinkFiles(p, files, n, confirm)
                      == LinkStep(LinkFiles(p, files, n - 1, confirm), files[n - 1], confirm(n - 1))
  {
    hide LinkStep;
    if n != 0 {
      RoomForThree(p, files, n - 1, confirm);
      var before := LinkFiles(p, files, n - 1, confirm);
      var i := FindOverlap(files[n - 1], before.remaining);
      LinkStepExactly(before, files[n - 1], confirm(n - 1), i);
    }
  }

  lemma {:induction false} LinkFilesEmits(p: VotingPlan, files: seq<VotingKey>, n: nat, confirm: nat -> bool)
    requires n <= |files|
    ensures var e := LinkFiles(VotingPlan([], p.remaining), files, n, confirm);
      LinkFiles(p, files, n, confirm) == VotingPlan(p.transactions + e.transactions, e.remaining)
  {
    hide LinkStep;
    if n != 0 {
      LinkFilesEmits(p, files, n - 1, confirm);
      var e := LinkFiles(VotingPlan([], p.remaining), files, n - 1, confirm);
      LinkStepEmits(e, files[n - 1], confirm(n - 1));
      LinkStepEmits(VotingPlan(p.transactions + e.transactions, e.remaining), files[n - 1], confirm(n - 1));
    }
  }

  ghost predicate Linkable(keys: seq<VotingKey>, files: seq<VotingKey>) {
    && Sound(keys) && |keys| <= MAX_VOTING_KEYS
    && Coherent(files)
    && forall f | f in files :: AtMostOneInTheWay(f, keys)
  }

  lemma NextFile(files: seq<VotingKey>, n: nat)
    requires n < |files|
    ensures files[n] in files
    ensures files[..n + 1] == files[..n] + [files[n]]
  {
  }

  lemma StillAtMostOne(keys: seq<VotingKey>, files: seq<VotingKey>, n: nat, now: seq<VotingKey>)
    requires Linkable(keys, files) && n < |files|
    requires Sound(now) && forall k | k in now :: k in keys || k in files[..n]
    ensures AtMostOneInTheWay(files[n], now)
  {
    NextFile(files, n);
    forall a, b | a in now && b in now && Overlaps(files[n], a) && Overlaps(files[n], b)
      ensures a == b
    {
      SoundMembers(now, a, b);
    }
  }

  ghost predicate Linked(keys: seq<VotingKey>, files: seq<VotingKey>, n: nat, now: seq<VotingKey>)
    requires n <= |files|
  {
    && Sound(now)
    && |keys| <= |now| <= MAX_VOTING_KEYS
    && forall k | k in now :: k in keys || k in files[..n]
  }

  lemma LinkedNext(keys: seq<VotingKey>, files: seq<VotingKey>, n: nat, now: seq<VotingKey>, confirmed: bool)
    requires Linkable(keys, files) && n < |files| && Linked(keys, files, n, now)
    ensures Linked(keys, files, n + 1, LinkStep(VotingPlan([], now), files[n], confirmed).remaining)
  {
    NextFile(files, n);
    StillAtMostOne(keys, files, n, now);
    LinkStepMembers(now, files[n], confirmed);
    LinkStepRun(AccountKeys(None, None, KeySet(now)), now, files[n], confirmed);
  }

  lemma {:induction false} LinkFilesMembers(keys: seq<VotingKey>, files: seq<VotingKey>, n: nat, confirm: nat -> bool)
    requires Linkable(keys, files) && n <= |files|
    ensures Linked(keys, files, n, LinkFiles(VotingPlan([], keys), files, n, confirm).remaining)
  {
    hide LinkStep;
    if n != 0 {
      LinkFilesMembers(keys, files, n - 1, confirm);
      var p := LinkFiles(VotingPlan([], keys), files, n - 1, confirm);
      LinkedNext(keys, files, n - 1, p.remaining, confirm(n - 1));
      LinkStepEmits(p, files[n - 1], confirm(n - 1));
    }
  }

  lemma {:induction false} LinkFilesTransactions(keys: seq<VotingKey>, files: seq<VotingKey>, n: nat,
                                                 confirm: nat -> bool)
    requires Linkable(keys, files) && n <= |files|
    ensures forall t | t in LinkFiles(VotingPlan([], keys), files, n, confirm).transactions ::
              t.VotingLink? && (t.action == Link ==> t.key in files[..n])
  {
    hide LinkStep;
    if n != 0 {
      LinkFilesTransactions(keys, files, n - 1, confirm);
      LinkFilesMembers(keys, files, n - 1, confirm);
      var p := LinkFiles(VotingPlan([], keys), files, n - 1, confirm);
      LinkStepMembers(p.remaining, files[n - 1], confirm(n - 1));
      LinkStepEmits(p, files[n - 1], confirm(n - 1));
      NextFile(files, n - 1);
    }
  }

  lemma {:induction false} LinkFilesRun(s: AccountKeys, keys: seq<VotingKey>, files: seq<VotingKey>, n: nat,
                                        confirm: nat -> bool)
    requires Linkable(keys, files) && n <= |files| && s.voting == KeySet(keys)
    ensures var p := LinkFiles(VotingPlan([], keys), files, n, confirm);
      ApplyAll(s, p.transactions) == Some(s.(voting := KeySet(p.remaining)))
  {
    hide LinkStep;
    if n != 0 {
      LinkFilesRun(s, keys, files, n - 1, confirm);
      LinkFilesMembers(keys, files, n - 1, confirm);
      var p := LinkFiles(VotingPlan([], keys), files, n - 1, confirm);
      NextFile(files, n - 1);
      StillAtMostOne(keys, files, n - 1, p.remaining);
      LinkStepEmits(p, files[n - 1], confirm(n - 1));
      LinkStepRun(s.(voting := KeySet(p.remaining)), p.remaining, files[n - 1], confirm(n - 1));
      ApplyConcat(s, p.transactions, LinkStep(VotingPlan([], p.remaining), files[n - 1], confirm(n - 1)).transactions);
    }
  }

  /** No unlink of the second loop takes back a file the loop linked: it would have to overlap a later
      file of another account. */
  lemma {:induction false} LinkFilesNeverTakesBack(keys: seq<VotingKey>, files: seq<VotingKey>, n: nat,
                                                   confirm: nat -> bool)
    requires Linkable(keys, files) && n <= |files|
    ensures NeverTakesBack(LinkFiles(VotingPlan([], keys), files, n, confirm).transactions)
  {
    hide LinkStep;
    if n != 0 {
      LinkFilesNeverTakesBack(keys, files, n - 1, confirm);
      LinkFilesMembers(keys, files, n - 1, confirm);
      LinkFilesTransactions(keys, files, n - 1, confirm);
      var p := LinkFiles(VotingPlan([], keys), files, n - 1, confirm);
      RoundTakesNothingBack(files, n - 1, p, confirm(n - 1));
    }
  }

  lemma RoundTakesNothingBack(files: seq<VotingKey>, n: nat, p: VotingPlan, confirmed: bool)
    requires Coherent(files) && n < |files| && Sound(p.remaining) && |p.remaining| <= MAX_VOTING_KEYS
    requires NeverTakesBack(p.transactions)
    requires forall t | t in p.transactions :: t.VotingLink? && (t.action == Link ==> t.key in files[..n])
    ensures NeverTakesBack(LinkStep(p, files[n], confirmed).transactions)
  {
    var e := LinkStep(VotingPlan([], p.remaining), files[n], confirmed);
    NextFile(files, n);
    LinkStepEmits(p, files[n], confirmed);
    LinkStepMembers(p.remaining, files[n], confirmed);
    forall t, u | t in p.transactions && u in e.transactions && t.action == Link && u.action == Unlink
      ensures !SameKey(t, u)
    {
      assert t.key in files && Overlaps(u.key, files[n]);
    }
    NeverTakesBackConcat(p.transactions, e.transactions);
  }

  lemma NeverTakesBackConcat(a: seq<Transaction>, b: seq<Transaction>)
    requires NeverTakesBack(a) && NeverTakesBack(b)
    requires forall t, u | t in a && u in b && t.action == Link && u.action == Unlink :: !SameKey(t, u)
    ensures NeverTakesBack(a + b)
  {
    forall i, j | 0 <= i < j < |a + b| && (a + b)[i].action == Link && (a + b)[j].action == Unlink
      ensures !SameKey((a + b)[i], (a + b)[j])
    {
      if i < |a| <= j {
        assert (a + b)[i] in a && (a + b)[j] in b;
      }
    }
  }

  lemma {:induction false} LinkFilesSettle(keys: seq<VotingKey>, files: seq<VotingKey>, n: nat, confirm: nat -> bool)
    requires Linkable(keys, files) && n <= |files| && forall i :: confirm(i)
    ensures forall f | f in files[..n] :: Settled(f, LinkFiles(VotingPlan([], keys), files, n, confirm).remaining)
  {
    hide LinkStep;
    if n != 0 {
      LinkFilesSettle(keys, files, n - 1, confirm);
      LinkFilesMembers(keys, files, n - 1, confirm);
      var p := LinkFiles(VotingPlan([], keys), files, n - 1, confirm);
      RoundSettles(files, n - 1, p.remaining);
      LinkStepEmits(p, files[n - 1], true);
    }
  }

  lemma RoundSettles(files: seq<VotingKey>, n: nat, now: seq<VotingKey>)
    requires Coherent(files) && n < |files| && Sound(now) && |now| <= MAX_VOTING_KEYS
    requires forall f | f in files[..n] :: Settled(f, now)
    ensures forall f | f in files[..n + 1] :: Settled(f, LinkStep(VotingPlan([], now), files[n], true).remaining)
  {
    NextFile(files, n);
    LinkStepMembers(now, files[n], true);
    forall f | f in files[..n]
      ensures Settled(f, LinkStep(VotingPlan([], now), files[n], true).remaining)
    {
      StaysSettled(f, now, files[n], LinkStep(VotingPlan([], now), files[n], true).remaining);
    }
  }

  lemma StaysSettled(f: VotingKey, before: seq<VotingKey>, other: VotingKey, after: seq<VotingKey>)
    requires Settled(f, before) && Settled(other, after) && |before| <= |after|
    requires Overlaps(f, other) ==> SameAccount(f, other)
    requires forall k | k in before && !Overlaps(k, other) :: k in after
    requires forall k | k in after :: k in before || k == other
    ensures Settled(f, after)
  {
    if Overlaps(f, other) {
      if k :| k in after && SameAccount(k, other) {
        assert SameAccount(k, f);
      }
    } else if k :| k in before && SameAccount(k, f) {
      assert k in after;
    }
  }

  // ----- the main results about the link plan -----

  /** The account whose keys the node's view lists. */
  ghost function Account(current: NodeKeys): AccountKeys {
    AccountKeys(UpperSlot(current.remote), UpperSlot(current.vrf), KeySet(current.voting))
  }

  function UpperSlot(slot: Option<string>): Option<string> {
    if slot.Some? then Some(Upper(slot.value)) else None
  }

  lemma KeptIsLinkable(linked: seq<VotingKey>, files: seq<VotingKey>, epoch: int, confirm: nat -> bool)
    requires Plannable(linked, files, epoch)
    ensures Linkable(UnlinkExpired(linked, |linked|, epoch, confirm).remaining, Active(files, epoch))
    ensures forall k | k in UnlinkExpired(linked, |linked|, epoch, confirm).remaining :: k in linked
  {
    var kept := UnlinkExpired(linked, |linked|, epoch, confirm).remaining;
    ExpiredMembers(linked, |linked|, epoch, confirm);
    ExpiredRun(AccountKeys(None, None, KeySet(linked)), linked, |linked|, epoch, confirm);
    assert linked[..|linked|] == linked;
    WorkingEnds(kept, linked);
    ActiveMembers(files, epoch);
  }

  /** Under any answers the voting plan is accepted as it was built, ends with the sound keys it
      expects, at most three, and never takes back a key it linked. */
  lemma {:induction false} LinkPlanRun(s: AccountKeys, linked: seq<VotingKey>, files: seq<VotingKey>, epoch: int,
                                       answers: Answers)
    requires Plannable(linked, files, epoch) && s.voting == KeySet(linked)
    ensures var p := LinkPlan(linked, files, epoch, answers);
      && ApplyAll(s, p.transactions) == Some(s.(voting := KeySet(p.remaining)))
      && Sound(p.remaining) && |p.remaining| <= MAX_VOTING_KEYS
      && NeverTakesBack(p.transactions)
      && forall t | t in p.transactions :: t.VotingLink?
  {
    hide LinkStep;
    var p := UnlinkExpired(linked, |linked|, epoch, answers.expired);
    var active := Active(files, epoch);
    ExpiredRun(s, linked, |linked|, epoch, answers.expired);
    ExpiredMembers(linked, |linked|, epoch, answers.expired);
    WorkingEnds(p.remaining, linked);
    KeptIsLinkable(linked, files, epoch, answers.expired);
    LinkFilesEmits(p, active, |active|, answers.overlapping);
    LinkFilesMembers(p.remaining, active, |active|, answers.overlapping);
    LinkFilesTransactions(p.remaining, active, |active|, answers.overlapping);
    LinkFilesNeverTakesBack(p.remaining, active, |active|, answers.overlapping);
    var e := LinkFiles(VotingPlan([], p.remaining), active, |active|, answers.overlapping);
    LinkFilesRun(s.(voting := KeySet(p.remaining)), p.remaining, active, |active|, answers.overlapping);
    ApplyConcat(s, p.transactions, e.transactions);
    NeverTakesBackConcat(p.transactions, e.transactions);
  }

  /** What a slot (remote or VRF) holds after its plan. */
  function SlotAfter(unlink: bool, linked: Option<string>, configured: Option<string>,
                     confirmed: bool): Option<string> {
    if configured.None? then UpperSlot(linked)
    else if linked.None? then if unlink then None else UpperSlot(configured)
    else if UpperSlot(linked) == UpperSlot(configured) || confirmed then if unlink then None else UpperSlot(configured)
    else UpperSlot(linked)
  }

  lemma {:induction false} RemoteRun(s: AccountKeys, unlink: bool, current: NodeKeys, node: NodeKeys, confirmed: bool)
    requires s.remote == UpperSlot(current.remote)
    ensures var txs := RemotePlan(unlink, current, node, confirmed);
      && ApplyAll(s, txs) == Some(s.(remote := SlotAfter(unlink, current.remote, node.remote, confirmed)))
      && NeverTakesBack(txs)
      && forall t | t in txs :: t.RemoteLink?
  {
    var txs := RemotePlan(unlink, current, node, confirmed);
    if |txs| == 1 {
      ApplySnoc(s, [], txs[0]);
    } else if |txs| == 2 {
      ApplySnoc(s, [], txs[0]);
      ApplySnoc(s, [txs[0]], txs[1]);
    }
  }

  /** Nothing is planned for a slot exactly when it already is as it will be. */
  lemma {:induction false} SlotsArePlannedWhenNeeded(unlink: bool, current: NodeKeys, node: NodeKeys, confirmed: bool)
    ensures RemotePlan(unlink, current, node, confirmed) == []
        <==> SlotAfter(unlink, current.remote, node.remote, confirmed) == UpperSlot(current.remote)
    ensures VrfPlan(unlink, current, node, confirmed) == []
        <==> SlotAfter(unlink, current.vrf, node.vrf, confirmed) == UpperSlot(current.vrf)
    ensures |RemotePlan(unlink, current, node, confirmed)| <= 2 && |VrfPlan(unlink, current, node, confirmed)| <= 2
  {
  }

  lemma {:induction false} VrfRun(s: AccountKeys, unlink: bool, current: NodeKeys, node: NodeKeys, confirmed: bool)
    requires s.vrf == UpperSlot(current.vrf)
    ensures var txs := VrfPlan(unlink, current, node, confirmed);
      && ApplyAll(s, txs) == Some(s.(vrf := SlotAfter(unlink, current.vrf, node.vrf, confirmed)))
      && NeverTakesBack(txs)
      && forall t | t in txs :: t.VrfLink?
  {
    var txs := VrfPlan(unlink, current, node, confirmed);
    if |txs| == 1 {
      ApplySnoc(s, [], txs[0]);
    } else if |txs| == 2 {
      ApplySnoc(s, [], txs[0]);
      ApplySnoc(s, [txs[0]], txs[1]);
    }
  }

  /** Everything announced for a node, unlinks first: under any answers every transaction is accepted
      and the account ends exactly as in the order of planning. */
  lemma {:induction false} AnnouncedPlanRun(unlink: bool, current: NodeKeys, node: NodeKeys, epoch: int,
                                            answers: Answers)
    requires if unlink then Sound(current.voting) else Plannable(current.voting, node.voting, epoch)
    ensures var plan := GenericPlan(unlink, current, node, epoch, answers);
      && ApplyAll(Account(current), plan)
         == Some(AccountKeys(SlotAfter(unlink, current.remote, node.remote, answers.remote),
                             SlotAfter(unlink, current.vrf, node.vrf, answers.vrf),
                             KeySet(VotingKeysPlan(unlink, current, node, epoch, answers).remaining)))
      && ApplyAll(Account(current), UnlinksFirst(plan)) == ApplyAll(Account(current), plan)
  {
    var s0 := Account(current);
    var a, b := RemotePlan(unlink, current, node, answers.remote), VrfPlan(unlink, current, node, answers.vrf);
    var c := VotingKeysPlan(unlink, current, node, epoch, answers).transactions;
    var s1 := s0.(remote := SlotAfter(unlink, current.remote, node.remote, answers.remote));
    var s2 := s1.(vrf := SlotAfter(unlink, current.vrf, node.vrf, answers.vrf));
    RemoteRun(s0, unlink, current, node, answers.remote);
    VrfRun(s1, unlink, current, node, answers.vrf);
    VotingRun(s2, unlink, current, node, epoch, answers);
    ApplyConcat(s0, a, b);
    ApplyConcat(s0, a + b, c);
    NeverTakesBackConcat(a, b);
    NeverTakesBackConcat(a + b, c);
    SortIsSafe(s0, a + b + c);
  }

  lemma VotingRun(s: AccountKeys, unlink: bool, current: NodeKeys, node: NodeKeys, epoch: int, answers: Answers)
    requires if unlink then Sound(current.voting) else Plannable(current.voting, node.voting, epoch)
    requires s.voting == KeySet(current.voting)
    ensures var p := VotingKeysPlan(unlink, current, node, epoch, answers);
      && ApplyAll(s, p.transactions) == Some(s.(voting := KeySet(p.remaining)))
      && NeverTakesBack(p.transactions)
      && forall t | t in p.transactions :: t.VotingLink?
  {
    if unlink {
      UnlinkFilesRun(s, current.voting, node.voting, |node.voting|, answers.overlapping);
    } else {
      LinkPlanRun(s, current.voting, node.voting, epoch, answers);
    }
  }

  // ----- the unlink command -----

  lemma {:induction false} UnlinkFilesRun(s: AccountKeys, linked: seq<VotingKey>, files: seq<VotingKey>, n: nat,
                                          confirm: nat -> bool)
    requires Sound(linked) && n <= |files| && s.voting == KeySet(linked)
    ensures var p := UnlinkFiles(linked, files, n, confirm);
      && Sound(p.remaining)
      && ApplyAll(s, p.transactions) == Some(s.(voting := KeySet(p.remaining)))
      && forall t | t in p.transactions :: t.VotingLink? && t.action == Unlink
  {
    hide RemoveAt, KeySet;
    if n != 0 {
      UnlinkFilesRun(s, linked, files, n - 1, confirm);
      var p := UnlinkFiles(linked, files, n - 1, confirm);
      var i := FindOverlap(files[n - 1], p.remaining);
      if i < |p.remaining| {
        UnlinkOne(s.(voting := KeySet(p.remaining)), p.remaining, i);
        ApplySnoc(s, p.transactions, VotingLink(p.remaining[i], Unlink));
      }
    }
  }

  /** Whatever is linked, whatever the files and the answers: only linked keys that are exactly a
      configured file are ever unlinked. */
  lemma {:induction false} UnlinkOnlyConfigured(linked: seq<VotingKey>, files: seq<VotingKey>, n: nat,
                                                confirm: nat -> bool)
    requires n <= |files|
    ensures var p := UnlinkFiles(linked, files, n, confirm);
      && (forall k | k in p.remaining :: k in linked)
      && (forall t | t in p.transactions :: t.VotingLink? && t.action == Unlink && t.key in linked)
      && (forall t | t in p.transactions :: exists f :: f in files && SameAccount(t.key, f))
  {
    if n != 0 {
      UnlinkOnlyConfigured(linked, files, n - 1, confirm);
      assert files[n - 1] in files;
    }
  }

  /** With every unlink confirmed, what stays linked is exactly what no file configures. */
  lemma {:induction false} UnlinkRemovesConfigured(linked: seq<VotingKey>, files: seq<VotingKey>, n: nat,
                                                   confirm: nat -> bool)
    requires Sound(linked) && AllProper(files) && n <= |files| && forall i :: confirm(i)
    ensures var p := UnlinkFiles(linked, files, n, confirm);
      && Sound(p.remaining)
      && forall k :: k in p.remaining <==> k in linked && !Configured(k, files, n)
  {
    hide UnlinkStep;
    if n != 0 {
      UnlinkRemovesConfigured(linked, files, n - 1, confirm);
      assert files[n - 1] in files;
      UnlinkStepMembers(UnlinkFiles(linked, files, n - 1, confirm), files[n - 1]);
    }
  }

  /** Exactly what the unlink command does, under any answers: a linked key is unlinked when some file is exactly
      that key and the answer for that file is yes, and else it stays. */
  lemma {:induction false} UnlinkExactly(linked: seq<VotingKey>, files: seq<VotingKey>, n: nat, confirm: nat -> bool)
    requires Sound(linked) && AllProper(files) && n <= |files|
    ensures var p := UnlinkFiles(linked, files, n, confirm);
      && Sound(p.remaining)
      && (forall k :: k in p.remaining <==> k in linked && !AnsweredYes(k, files, n, confirm))
      && (forall t :: t in p.transactions
            <==> t.VotingLink? && t.action == Unlink && t.key in linked && AnsweredYes(t.key, files, n, confirm))
    ensures n > 0 ==>
      var before := UnlinkFiles(linked, files, n - 1, confirm);
      before.transactions <= UnlinkFiles(linked, files, n, confirm).transactions
  {
    hide UnlinkStep, AnsweredYes, Sound;
    if n == 0 {
      NoneAnswered(linked, files, confirm);
    } else {
      UnlinkExactly(linked, files, n - 1, confirm);
      assert files[n - 1] in files;
      UnlinkStepExactly(UnlinkFiles(linked, files, n - 1, confirm), files[n - 1], confirm(n - 1));
      forall k
        ensures AnsweredYes(k, files, n, confirm)
            <==> AnsweredYes(k, files, n - 1, confirm) || (confirm(n - 1) && SameAccount(k, files[n - 1]))
      {
        AnsweredNext(k, files, n - 1, confirm);
      }
    }
  }

  predicate AnsweredYes(k: VotingKey, files: seq<VotingKey>, n: nat, confirm: nat -> bool)
    requires n <= |files|
  {
    exists i | 0 <= i < n :: confirm(i) && SameAccount(k, files[i])
  }

  lemma NoneAnswered(linked: seq<VotingKey>, files: seq<VotingKey>, confirm: nat -> bool)
    ensures forall k :: !AnsweredYes(k, files, 0, confirm)
  {
  }

  lemma AnsweredNext(k: VotingKey, files: seq<VotingKey>, n: nat, confirm: nat -> bool)
    requires n < |files|
    ensures AnsweredYes(k, files, n + 1, confirm)
        <==> AnsweredYes(k, files, n, confirm) || (confirm(n) && SameAccount(k, files[n]))
  {
  }

  lemma UnlinkStepExactly(p: VotingPlan, file: VotingKey, confirmed: bool)
    requires Sound(p.remaining) && Proper(file)
    ensures var e := UnlinkStep(p, file, confirmed);
      && Sound(e.remaining) && p.transactions <= e.transactions
      && (forall k :: k in e.remaining <==> k in p.remaining && !(confirmed && SameAccount(k, file)))
      && (forall t :: t in e.transactions
            <==> t in p.transactions || (t.VotingLink? && t.action == Unlink && t.key in p.remaining
                                         && confirmed && SameAccount(t.key, file)))
  {
    var i := FindOverlap(file, p.remaining);
    if i < |p.remaining| {
      KeySetRemove(p.remaining, i);
      OnlyFoundIsSame(file, p.remaining, i);
    }
  }

  // ----- the order of the plan, and who answers -----

  function Rank(t: Transaction): nat {
    match t
    case RemoteLink(_, _) => 0
    case VrfLink(_, _) => 1
    case VotingLink(_, _) => 2
  }

  /** The remote key comes first in a plan, then the VRF key, then the voting keys. */
  lemma {:induction false} PlanOrder(unlink: bool, current: NodeKeys, node: NodeKeys, epoch: int, answers: Answers)
    requires if unlink then Sound(current.voting) else Plannable(current.voting, node.voting, epoch)
    ensures var plan := GenericPlan(unlink, current, node, epoch, answers);
      forall i, j | 0 <= i < j < |plan| :: Rank(plan[i]) <= Rank(plan[j])
  {
    var a, b := RemotePlan(unlink, current, node, answers.remote), VrfPlan(unlink, current, node, answers.vrf);
    var c := VotingKeysPlan(unlink, current, node, epoch, answers).transactions;
    var s := Account(current);
    RemoteRun(s, unlink, current, node, answers.remote);
    VrfRun(s, unlink, current, node, answers.vrf);
    VotingRun(s, unlink, current, node, epoch, answers);
    forall i | 0 <= i < |a + b + c|
      ensures Rank((a + b + c)[i]) == if i < |a| then 0 else if i < |a| + |b| then 1 else 2
    {
      RankInParts(a, b, c, i);
    }
  }

  /** The unlink command plans unlinks only, whatever is linked and answered. The link command, for an account with
      nothing linked, plans to link the remote key, the VRF key and the first active file. */
  lemma {:induction false} CommandsPlan(current: NodeKeys, node: NodeKeys, epoch: int, answers: Answers)
    ensures forall t | t in GenericPlan(true, current, node, epoch, answers) :: t.action == Unlink
    ensures current == NodeKeys(None, None, []) ==>
      var plan := GenericPlan(false, current, node, epoch, answers);
      && (node.remote.Some? ==> RemoteLink(node.remote.value, Link) in plan)
      && (node.vrf.Some? ==> VrfLink(node.vrf.value, Link) in plan)
      && (Active(node.voting, epoch) != [] ==> VotingLink(Active(node.voting, epoch)[0], Link) in plan)
  {
    hide UnlinkStep, LinkStep, FindOverlap, Active;
    OnlyUnlinks(current.voting, node.voting, |node.voting|, answers.overlapping);
    if current == NodeKeys(None, None, []) {
      var active := Active(node.voting, epoch);
      var plan := VotingKeysPlan(false, current, node, epoch, answers).transactions;
      assert UnlinkExpired([], 0, epoch, answers.expired) == VotingPlan([], []);
      if active != [] {
        FirstFileIsLinked(active, |active|, answers.overlapping);
        assert VotingLink(active[0], Link) in plan;
      }
    }
  }

  lemma {:induction false} OnlyUnlinks(linked: seq<VotingKey>, files: seq<VotingKey>, n: nat, confirm: nat -> bool)
    requires n <= |files|
    ensures forall t | t in UnlinkFiles(linked, files, n, confirm).transactions :: t.VotingLink? && t.action == Unlink
  {
    if n != 0 {
      OnlyUnlinks(linked, files, n - 1, confirm);
    }
  }

  lemma {:induction false} FirstFileIsLinked(files: seq<VotingKey>, n: nat, confirm: nat -> bool)
    requires 0 < n <= |files|
    ensures VotingLink(files[0], Link) in LinkFiles(VotingPlan([], []), files, n, confirm).transactions
  {
    hide FindOverlap, LinkStep;
    if n == 1 {
      LinkStepExactly(VotingPlan([], []), files[0], confirm(0), 0);
      assert LinkFiles(VotingPlan([], []), files, 0, confirm) == VotingPlan([], []);
    } else {
      FirstFileIsLinked(files, n - 1, confirm);
      LinkStepEmits(LinkFiles(VotingPlan([], []), files, n - 1, confirm), files[n - 1], confirm(n - 1));
    }
  }

  lemma RankInParts(a: seq<Transaction>, b: seq<Transaction>, c: seq<Transaction>, i: nat)
    requires i < |a + b + c|
    requires (forall t | t in a :: t.RemoteLink?) && (forall t | t in b :: t.VrfLink?)
        && forall t | t in c :: t.VotingLink?
    ensures Rank((a + b + c)[i]) == if i < |a| then 0 else if i < |a| + |b| then 1 else 2
  {
    var t := (a + b + c)[i];
    assert if i < |a| then t in a else if i < |a| + |b| then t in b else t in c;
  }

  function Always(answer: bool): Answers {
    Answers(answer, answer, (i: nat) => answer, (i: nat) => answer)
  }

  ghost predicate SameAnswers(a: Answers, b: Answers) {
    && a.remote == b.remote && a.vrf == b.vrf
    && forall i: nat :: a.expired(i) == b.expired(i) && a.overlapping(i) == b.overlapping(i)
  }

  lemma {:induction false} SameExpired(linked: seq<VotingKey>, n: nat, epoch: int, a: nat -> bool, b: nat -> bool)
    requires n <= |linked| && forall i: nat :: a(i) == b(i)
    ensures UnlinkExpired(linked, n, epoch, a) == UnlinkExpired(linked, n, epoch, b)
  {
    if n != 0 {
      SameExpired(linked, n - 1, epoch, a, b);
    }
  }

  lemma {:induction false} SameLinks(p: VotingPlan, files: seq<VotingKey>, n: nat, a: nat -> bool, b: nat -> bool)
    requires n <= |files| && forall i: nat :: a(i) == b(i)
    ensures LinkFiles(p, files, n, a) == LinkFiles(p, files, n, b)
  {
    if n != 0 {
      SameLinks(p, files, n - 1, a, b);
    }
  }

  lemma {:induction false} SameUnlinks(linked: seq<VotingKey>, files: seq<VotingKey>, n: nat, a: nat -> bool,
                                       b: nat -> bool)
    requires n <= |files| && forall i: nat :: a(i) == b(i)
    ensures UnlinkFiles(linked, files, n, a) == UnlinkFiles(linked, files, n, b)
  {
    if n != 0 {
      SameUnlinks(linked, files, n - 1, a, b);
    }
  }

  lemma SamePlan(unlink: bool, current: NodeKeys, node: NodeKeys, epoch: int, a: Answers, b: Answers)
    requires SameAnswers(a, b)
    ensures GenericPlan(unlink, current, node, epoch, a) == GenericPlan(unlink, current, node, epoch, b)
  {
    hide UnlinkExpired, LinkFiles, UnlinkFiles, SlotPlan;
    var linked, files, active := current.voting, node.voting, Active(node.voting, epoch);
    SameExpired(linked, |linked|, epoch, a.expired, b.expired);
    SameLinks(UnlinkExpired(linked, |linked|, epoch, a.expired), active, |active|, a.overlapping, b.overlapping);
    SameUnlinks(linked, files, |files|, a.overlapping, b.overlapping);
  }

  lemma DecidedAnswers(params: LinkParams, prompts: Answers)
    ensures params.removeOldLinked == Some(true) ==> SameAnswers(Decide(params, prompts), Always(true))
    ensures params.removeOldLinked == Some(false) ==> SameAnswers(Decide(params, prompts), Always(false))
    ensures params.removeOldLinked == None && params.ready ==> SameAnswers(Decide(params, prompts), Always(true))
    ensures params.removeOldLinked == None && !params.ready ==> SameAnswers(Decide(params, prompts), prompts)
  {
    forall i: nat
      ensures Decide(params, prompts).expired(i) == ConfirmUnlink(params, prompts.expired(i))
      ensures Decide(params, prompts).overlapping(i) == ConfirmUnlink(params, prompts.overlapping(i))
      ensures forall answer :: Always(answer).expired(i) == answer && Always(answer).overlapping(i) == answer
    {
    }
  }

  /** Who decides about unlinks: `removeOldLinked` when it is given, whatever else; otherwise `ready` confirms
      everything; and only without both do the prompts count, each for itself. */
  lemma {:induction false} WhoConfirms(ready: bool, removeOldLinked: Option<bool>, prompts: Answers, unlink: bool,
                                       current: NodeKeys, node: NodeKeys, epoch: int)
    ensures var plan := GenericPlan(unlink, current, node, epoch,
                                    Decide(LinkParams(unlink, ready, removeOldLinked), prompts));
      && (removeOldLinked == Some(true) ==> plan == GenericPlan(unlink, current, node, epoch, Always(true)))
      && (removeOldLinked == Some(false) ==> plan == GenericPlan(unlink, current, node, epoch, Always(false)))
      && (removeOldLinked == None && ready ==> plan == GenericPlan(unlink, current, node, epoch, Always(true)))
      && (removeOldLinked == None && !ready ==> plan == GenericPlan(unlink, current, node, epoch, prompts))
  {
    hide GenericPlan, SameAnswers;
    var decided := Decide(LinkParams(unlink, ready, removeOldLinked), prompts);
    DecidedAnswers(LinkParams(unlink, ready, removeOldLinked), prompts);
    if removeOldLinked == Some(true) || (removeOldLinked == None && ready) {
      SamePlan(unlink, current, node, epoch, decided, Always(true));
    } else if removeOldLinked == Some(false) {
      SamePlan(unlink, current, node, epoch, decided, Always(false));
    } else {
      SamePlan(unlink, current, node, epoch, decided, prompts);
    }
  }

  predicate Configured(k: VotingKey, files: seq<VotingKey>, n: nat)
    requires n <= |files|
  {
    exists i | 0 <= i < n :: SameAccount(k, files[i])
  }

  lemma UnlinkStepMembers(p: VotingPlan, file: VotingKey)
    requires Sound(p.remaining) && Proper(file)
    ensures Sound(UnlinkStep(p, file, true).remaining)
    ensures forall k :: k in UnlinkStep(p, file, true).remaining <==> k in p.remaining && !SameAccount(k, file)
  {
    var i := FindOverlap(file, p.remaining);
    if i < |p.remaining| {
      KeySetRemove(p.remaining, i);
      OnlyFoundIsSame(file, p.remaining, i);
    }
  }

  lemma OnlyFoundIsSame(file: VotingKey, keys: seq<VotingKey>, i: nat)
    requires Sound(keys) && Proper(file) && i < |keys| && Overlaps(file, keys[i])
    ensures forall k | k in keys && k != keys[i] :: !SameAccount(k, file)
  {
    forall k | k in keys && k != keys[i]
      ensures !SameAccount(k, file)
    {
      SoundMembers(keys, k, keys[i]);
    }
  }
}
