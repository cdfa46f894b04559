/** What the chain does with link transactions, and the order in which they are announced. */
module AccountChain {
  import opened Basics
  import opened VotingKeys

  datatype LinkAction = Unlink | Link

  datatype Transaction =
    | RemoteLink(publicKey: string, action: LinkAction)
    | VrfLink(publicKey: string, action: LinkAction)
    | VotingLink(key: VotingKey, action: LinkAction)

  /** The supplemental keys of a main account, in the chain's own spelling. */
  datatype AccountKeys = AccountKeys(remote: Option<string>, vrf: Option<string>, voting: set<VotingKey>)

  const MAX_VOTING_KEYS := 3

  function ApplySlot(slot: Option<string>, publicKey: string, action: LinkAction): Option<Option<string>> {
    match action
    case Link => if slot.None? then Some(Some(Upper(publicKey))) else None
    case Unlink => if slot == Some(Upper(publicKey)) then Some(None) else None
  }

  function ApplyVoting(voting: set<VotingKey>, key: VotingKey, action: LinkAction): Option<set<VotingKey>> {
    match action
    case Link => if Canon(key) !in voting && |voting| < MAX_VOTING_KEYS then Some(voting + {Canon(key)}) else None
    case Unlink => if Canon(key) in voting then Some(voting - {Canon(key)}) else None
  }

  /** The account after one transaction; `None` when the chain refuses it. */
  function Apply(s: AccountKeys, t: Transaction): Option<AccountKeys> {
    match t
    case RemoteLink(p, a) =>
      (match ApplySlot(s.remote, p, a) case Some(r) => Some(s.(remote := r)) case None => None)
    case VrfLink(p, a) =>
      (match ApplySlot(s.vrf, p, a) case Some(r) => Some(s.(vrf := r)) case None => None)
    case VotingLink(k, a) =>
      (match ApplyVoting(s.voting, k, a) case Some(v) => Some(s.(voting := v)) case None => None)
  }

  /** A whole plan in order; `None` as soon as one transaction is refused. */
  function ApplyAll(s: AccountKeys, txs: seq<Transaction>): Option<AccountKeys>
    decreases |txs|
  {
    if |txs| == 0 then Some(s)
    else
      match Apply(s, txs[0])
      case None => None
      case Some(next) => ApplyAll(next, txs[1..])
  }

  /** The chain never lets an account have a fourth voting key. */
  lemma {:induction false} NeverAFourth(s: AccountKeys, txs: seq<Transaction>)
    requires |s.voting| <= 3 && ApplyAll(s, txs).Some?
    ensures |ApplyAll(s, txs).value.voting| <= 3
    decreases |txs|
  {
    if |txs| != 0 {
      var next := Apply(s, txs[0]).value;
      if txs[0].VotingLink? && txs[0].action == Unlink {
        assert |s.voting - {Canon(txs[0].key)}| <= |s.voting|;
      }
      NeverAFourth(next, txs[1..]);
    }
  }

  function OfAction(txs: seq<Transaction>, action: LinkAction): seq<Transaction> {
    if |txs| == 0 then []
    else if txs[0].action == action then [txs[0]] + OfAction(txs[1..], action)
    else OfAction(txs[1..], action)
  }

  /** The announced order: a stable sort on the numeric action, and Unlink is 0. */
  function UnlinksFirst(txs: seq<Transaction>): seq<Transaction> {
    OfAction(txs, Unlink) + OfAction(txs, Link)
  }

  ghost predicate SortedByAction(txs: seq<Transaction>) {
    forall i, j | 0 <= i < j < |txs| :: txs[i].action == Link ==> txs[j].action == Link
  }

  predicate SameKey(t: Transaction, u: Transaction) {
    match (t, u)
    case (RemoteLink(p, _), RemoteLink(q, _)) => Upper(p) == Upper(q)
    case (VrfLink(p, _), VrfLink(q, _)) => Upper(p) == Upper(q)
    case (VotingLink(k, _), VotingLink(l, _)) => Canon(k) == Canon(l)
    case _ => false
  }

  /** The plan never takes back a key it has itself linked before. */
  ghost predicate NeverTakesBack(txs: seq<Transaction>) {
    forall i, j | 0 <= i < j < |txs| ::
      txs[i].action == Link && txs[j].action == Unlink ==> !SameKey(txs[i], txs[j])
  }

  lemma {:induction false} ApplyConcat(s: AccountKeys, a: seq<Transaction>, b: seq<Transaction>)
    ensures ApplyAll(s, a + b)
         == match ApplyAll(s, a) case None => None case Some(next) => ApplyAll(next, b)
    decreases |a|
  {
    if |a| == 0 {
      assert a + b == b;
    } else {
      assert (a + b)[1..] == a[1..] + b;
      match Apply(s, a[0])
      case None =>
      case Some(next) => ApplyConcat(next, a[1..], b);
    }
  }

  lemma {:induction false} OfActionConcat(a: seq<Transaction>, b: seq<Transaction>, action: LinkAction)
    ensures OfAction(a + b, action) == OfAction(a, action) + OfAction(b, action)
  {
    if |a| == 0 {
      assert a + b == b;
    } else {
      assert (a + b)[1..] == a[1..] + b;
      OfActionConcat(a[1..], b, action);
    }
  }

  lemma {:induction false} OfActionMembers(txs: seq<Transaction>, action: LinkAction)
    ensures forall t :: t in OfAction(txs, action) <==> t in txs && t.action == action
  {
    if |txs| != 0 {
      OfActionMembers(txs[1..], action);
      assert txs == [txs[0]] + txs[1..];
    }
  }

  /** `UnlinksFirst` is the one list that is sorted and keeps the order within each action. */
  lemma {:induction false} UnlinksFirstIsTheStableSort(txs: seq<Transaction>, r: seq<Transaction>)
    ensures r == UnlinksFirst(txs) <==>
              && SortedByAction(r)
              && OfAction(r, Unlink) == OfAction(txs, Unlink)
              && OfAction(r, Link) == OfAction(txs, Link)
  {
    UnlinksFirstIsSorted(txs);
    if SortedByAction(r) {
      SortedSplits(r);
    }
  }

  lemma UnlinksFirstIsSorted(txs: seq<Transaction>)
    ensures SortedByAction(UnlinksFirst(txs))
    ensures OfAction(UnlinksFirst(txs), Unlink) == OfAction(txs, Unlink)
    ensures OfAction(UnlinksFirst(txs), Link) == OfAction(txs, Link)
  {
    var us, ls := OfAction(txs, Unlink), OfAction(txs, Link);
    OfActionMembers(txs, Unlink);
    OfActionMembers(txs, Link);
    AllOfAction(us, Unlink);
    AllOfAction(ls, Link);
    OfActionConcat(us, ls, Unlink);
    OfActionConcat(us, ls, Link);
    forall i, j | 0 <= i < j < |us + ls| && (us + ls)[i].action == Link
      ensures (us + ls)[j].action == Link
    {
      assert (us + ls)[i] in us || i >= |us|;
      assert (us + ls)[j] in ls || j < |us|;
    }
  }

  lemma {:induction false} AllOfAction(txs: seq<Transaction>, action: LinkAction)
    requires forall t | t in txs :: t.action == action
    ensures OfAction(txs, action) == txs
    ensures forall other | other != action :: OfAction(txs, other) == []
  {
    if |txs| != 0 {
      assert txs[0] in txs;
      AllOfAction(txs[1..], action);
    }
  }

  lemma {:induction false} SortedSplits(r: seq<Transaction>)
    requires SortedByAction(r)
    ensures r == UnlinksFirst(r)
  {
    if |r| != 0 {
      var first, rest := r[0], r[1..];
      if first.action == Link {
        forall t | t in r
          ensures t.action == Link
        {
          var i :| 0 <= i < |r| && r[i] == t;
        }
        AllOfAction(r, Link);
      } else {
        SortedSplits(rest);
        assert UnlinksFirst(r) == [first] + UnlinksFirst(rest);
      }
    }
  }

  /** A link and an unlink of different keys can be swapped, refusals included. */
  lemma {:induction false} SwapStep(s: AccountKeys, t: Transaction, u: Transaction)
    requires t.action == Link && u.action == Unlink && !SameKey(t, u)
    requires Apply(s, t).Some?
    ensures Apply(Apply(s, t).value, u).Some? <==> Apply(s, u).Some?
    ensures Apply(s, u).Some? ==>
              && Apply(Apply(s, u).value, t).Some?
              && Apply(Apply(s, u).value, t) == Apply(Apply(s, t).value, u)
  {
    if t.VotingLink? && u.VotingLink? && Apply(s, u).Some? {
      var l, d := Canon(t.key), Canon(u.key);
      assert s.voting - {d} + {l} == s.voting + {l} - {d};
      assert |s.voting - {d}| <= |s.voting|;
    }
  }

  lemma {:induction false} MoveLink(s: AccountKeys, t: Transaction, us: seq<Transaction>)
    requires t.action == Link && Apply(s, t).Some?
    requires forall u | u in us :: u.action == Unlink && !SameKey(t, u)
    ensures ApplyAll(Apply(s, t).value, us)
         == match ApplyAll(s, us) case None => None case Some(next) => Apply(next, t)
    decreases |us|
  {
    if |us| != 0 {
      SwapStep(s, t, us[0]);
      match Apply(s, us[0])
      case None =>
      case Some(next) => MoveLink(next, t, us[1..]);
    }
  }

  /** Unlinks alone never bring a key back, so they cannot unlink one that is absent. */
  lemma {:induction false} UnlinksNeedTheirKey(s: AccountKeys, t: Transaction, us: seq<Transaction>)
    requires t.action == Link && Apply(s, t).Some?
    requires forall u | u in us :: u.action == Unlink
    requires ApplyAll(s, us).Some?
    ensures forall u | u in us :: !SameKey(t, u)
    decreases |us|
  {
    if |us| != 0 {
      assert us[0] in us && !SameKey(t, us[0]);
      SwapStep(s, t, us[0]);
      UnlinksNeedTheirKey(Apply(s, us[0]).value, t, us[1..]);
      assert forall u :: u in us <==> u == us[0] || u in us[1..];
    }
  }

  /** For a plan the chain accepts in the order it was built, announcing the unlinks first is
      accepted too exactly when the plan never takes back a key it linked; the account then ends
      the same. */
  lemma {:induction false} SortIsSafe(s: AccountKeys, txs: seq<Transaction>)
    requires ApplyAll(s, txs).Some?
    ensures ApplyAll(s, UnlinksFirst(txs)).Some? <==> NeverTakesBack(txs)
    ensures NeverTakesBack(txs) ==> ApplyAll(s, UnlinksFirst(txs)) == ApplyAll(s, txs)
    decreases |txs|
  {
    if |txs| != 0 {
      var t, rest := txs[0], txs[1..];
      var next := Apply(s, t).value;
      var us, ls := OfAction(rest, Unlink), OfAction(rest, Link);
      SortIsSafe(next, rest);
      OfActionMembers(rest, Unlink);
      assert txs == [t] + rest;
      NeverTakesBackCons(t, rest);
      if t.action == Unlink {
        assert UnlinksFirst(txs) == [t] + UnlinksFirst(rest);
      } else {
        assert UnlinksFirst(txs) == us + ([t] + ls);
        ApplyConcat(s, us, [t] + ls);
        if ApplyAll(s, us).Some? {
          UnlinksNeedTheirKey(s, t, us);
        }
        if forall u | u in us :: !SameKey(t, u) {
          MoveLink(s, t, us);
          ApplyConcat(next, us, ls);
          assert ([t] + ls)[1..] == ls;
        }
      }
    }
  }

  lemma NeverTakesBackCons(t: Transaction, rest: seq<Transaction>)
    ensures NeverTakesBack([t] + rest) <==>
              NeverTakesBack(rest)
              && (t.action == Link ==> forall u | u in OfAction(rest, Unlink) :: !SameKey(t, u))
  {
    var txs := [t] + rest;
    OfActionMembers(rest, Unlink);
    if NeverTakesBack(txs) {
      forall i, j | 0 <= i < j < |rest|
        ensures rest[i].action == Link && rest[j].action == Unlink ==> !SameKey(rest[i], rest[j])
      {
        assert txs[i + 1] == rest[i] && txs[j + 1] == rest[j];
      }
      forall u | u in OfAction(rest, Unlink)
        ensures t.action == Link ==> !SameKey(t, u)
      {
        var j :| 0 <= j < |rest| && rest[j] == u;
        assert txs[0] == t && txs[j + 1] == u;
      }
    }
  }
}
