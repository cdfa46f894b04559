/** Validating a change to a multisig account before it is announced. */
module MultisigModification {
  import opened Basics

  datatype Multisig = Multisig(minApproval: int, minRemoval: int, cosignatories: seq<string>)

  datatype Change = Change(additions: seq<string>, deletions: seq<string>, minRemovalDelta: int, minApprovalDelta: int)

  datatype Verdict =
    | Accepted
    | AlreadyCosignatory(address: string)
    | NotACosignatory(address: string)
    | TooFewForApproval(missing: int)
    | TooFewForRemoval(missing: int)
    | ZeroMinimum(cosignatories: int)

  function Cosignatories(current: Option<Multisig>): seq<string> {
    if current.Some? then current.value.cosignatories else []
  }

  function NewMinApproval(change: Change, current: Option<Multisig>): int {
    (if current.Some? then current.value.minApproval else 0) + change.minApprovalDelta
  }

  function NewMinRemoval(change: Change, current: Option<Multisig>): int {
    (if current.Some? then current.value.minRemoval else 0) + change.minRemovalDelta
  }

  /** The number of cosignatories as the validation counts it, from the lengths of the lists. */
  function CountedCosignatories(change: Change, current: Option<Multisig>): int {
    |Cosignatories(current)| + (|change.additions| - |change.deletions|)
  }

  /** The first of the addresses that is, or is not, among the others. */
  function FirstWhere(addresses: seq<string>, others: seq<string>, member: bool): Option<string> {
    if |addresses| == 0 then None
    else if (addresses[0] in others) == member then Some(addresses[0])
    else FirstWhere(addresses[1..], others, member)
  }

  function ValidateParams(change: Change, current: Option<Multisig>): Verdict {
    var cosignatories := Cosignatories(current);
    var count := CountedCosignatories(change, current);
    var minApproval, minRemoval := NewMinApproval(change, current), NewMinRemoval(change, current);
    var present := FirstWhere(change.additions, cosignatories, true);
    if present.Some? then AlreadyCosignatory(present.value)
    else
      var absent := FirstWhere(change.deletions, cosignatories, false);
      if absent.Some? then NotACosignatory(absent.value)
      else if count < minApproval then TooFewForApproval(minApproval - count)
      else if count < minRemoval then TooFewForRemoval(minRemoval - count)
      else if count > 0 && (minApproval == 0 || minRemoval == 0) then ZeroMinimum(count)
      else Accepted
  }

  // ----- the account after the change -----

  function SetOf(addresses: seq<string>): set<string> {
    set a | a in addresses
  }

  function Without(addresses: seq<string>, removed: seq<string>): seq<string> {
    if |addresses| == 0 then []
    else (if addresses[0] in removed then [] else [addresses[0]]) + Without(addresses[1..], removed)
  }

  /** Every address once, where it comes last. */
  function Distinct(addresses: seq<string>): seq<string> {
    if |addresses| == 0 then []
    else (if addresses[0] in addresses[1..] then [] else [addresses[0]]) + Distinct(addresses[1..])
  }

  /** The account after the change; an address can be a cosignatory only once. */
  function After(change: Change, current: Option<Multisig>): Multisig {
    Multisig(NewMinApproval(change, current), NewMinRemoval(change, current),
             Without(Cosignatories(current), change.deletions) + Distinct(change.additions))
  }

  /** Minimums for a number of cosignatories: none for nobody, or such as the cosignatories can meet. */
  predicate AreMinimums(minApproval: int, minRemoval: int, n: int) {
    || (n == 0 && minApproval == 0 && minRemoval == 0)
    || (1 <= minApproval <= n && 1 <= minRemoval <= n)
  }

  /** A multisig account the network can hold. */
  predicate IsSound(m: Multisig) {
    AreMinimums(m.minApproval, m.minRemoval, |SetOf(m.cosignatories)|)
  }

  /** How many cosignatories there really are after a fitting change. */
  function RealCosignatories(change: Change, current: Option<Multisig>): int {
    |Cosignatories(current)| + |SetOf(change.additions)| - |SetOf(change.deletions)|
  }

  /** How many cosignatories the validation counts too many: the repetitions among the additions, less those
      among the deletions. */
  function Miscounted(change: Change): int {
    (|change.additions| - |SetOf(change.additions)|) - (|change.deletions| - |SetOf(change.deletions)|)
  }

  /** What the validation does not look at: minimums below zero, minimums that only cosignatories counted too
      often can meet, and minimums of zero for cosignatories that were not counted. */
  predicate Guarded(change: Change, current: Option<Multisig>) {
    var minApproval, minRemoval := NewMinApproval(change, current), NewMinRemoval(change, current);
    var count, miscounted := RealCosignatories(change, current), Miscounted(change);
    && minApproval >= 0 && minRemoval >= 0
    && (miscounted > 0 ==> minApproval <= count && minRemoval <= count)
    && (miscounted < 0 && count > 0 ==> minApproval != 0 && minRemoval != 0)
  }

  /** Additions are outside and deletions inside the present cosignatories. */
  predicate ListsFit(change: Change, current: Option<Multisig>) {
    && (forall a | a in change.additions :: a !in Cosignatories(current))
    && (forall a | a in change.deletions :: a in Cosignatories(current))
  }

  lemma {:induction false} FirstWhereNone(addresses: seq<string>, others: seq<string>, member: bool)
    ensures FirstWhere(addresses, others, member).None? <==> forall a | a in addresses :: (a in others) != member
    ensures FirstWhere(addresses, others, member).Some? ==>
              FirstWhere(addresses, others, member).value in addresses
                  && (FirstWhere(addresses, others, member).value in others) == member
  {
    if |addresses| != 0 {
      FirstWhereNone(addresses[1..], others, member);
      assert forall a :: a in addresses <==> a == addresses[0] || a in addresses[1..];
    }
  }

  /** A position of the first address that is, or is not, among the others. */
  ghost predicate IsFirst(address: string, addresses: seq<string>, others: seq<string>, member: bool) {
    exists i | 0 <= i < |addresses| ::
      addresses[i] == address && (address in others) == member
      && forall j | 0 <= j < i :: (addresses[j] in others) != member
  }

  lemma {:induction false} FirstWhereIsFirst(addresses: seq<string>, others: seq<string>, member: bool)
    requires FirstWhere(addresses, others, member).Some?
    ensures IsFirst(FirstWhere(addresses, others, member).value, addresses, others, member)
  {
    if (addresses[0] in others) != member {
      var rest := addresses[1..];
      FirstWhereIsFirst(rest, others, member);
      var found := FirstWhere(rest, others, member).value;
      var i :| 0 <= i < |rest| && rest[i] == found && (found in others) == member
            && forall j | 0 <= j < i :: (rest[j] in others) != member;
      assert addresses[i + 1] == found;
    } else {
      assert addresses[0] == FirstWhere(addresses, others, member).value;
    }
  }

  /** Which change gets which verdict, for an account with these cosignatories and minimums (none and zero for a plain
      account): an addition that is a cosignatory already comes before a deletion that is none, and both before
      too few cosignatories for the approval minimum, for the removal minimum, and minimums of zero. */
  lemma {:induction false} VerdictsAre(change: Change, current: Option<Multisig>)
    ensures var present := match current case Some(m) => m case None => Multisig(0, 0, []);
      var cosignatories := present.cosignatories;
      var count := |cosignatories| + |change.additions| - |change.deletions|;
      var approval, removal := present.minApproval + change.minApprovalDelta,
          present.minRemoval + change.minRemovalDelta;
      match ValidateParams(change, current)
      case AlreadyCosignatory(a) => IsFirst(a, change.additions, cosignatories, true)
      case NotACosignatory(a) => ListsAdd(change, cosignatories) && IsFirst(a, change.deletions, cosignatories, false)
      case TooFewForApproval(missing) => ListsAgree(change, cosignatories) && missing == approval - count > 0
      case TooFewForRemoval(missing) =>
        ListsAgree(change, cosignatories) && approval <= count && missing == removal - count > 0
      case ZeroMinimum(n) =>
        ListsAgree(change, cosignatories) && n == count > 0 && approval <= count && removal <= count
        && (approval == 0 || removal == 0)
      case Accepted =>
        ListsAgree(change, cosignatories) && approval <= count && removal <= count
        && (count > 0 ==> approval != 0 && removal != 0)
  {
    hide FirstWhere;
    FirstWhereNone(change.additions, Cosignatories(current), true);
    FirstWhereNone(change.deletions, Cosignatories(current), false);
    if FirstWhere(change.additions, Cosignatories(current), true).Some? {
      FirstWhereIsFirst(change.additions, Cosignatories(current), true);
    } else if FirstWhere(change.deletions, Cosignatories(current), false).Some? {
      FirstWhereIsFirst(change.deletions, Cosignatories(current), false);
    }
  }

  predicate ListsAdd(change: Change, cosignatories: seq<string>) {
    forall a | a in change.additions :: a !in cosignatories
  }

  predicate ListsAgree(change: Change, cosignatories: seq<string>) {
    ListsAdd(change, cosignatories) && forall a | a in change.deletions :: a in cosignatories
  }

  lemma {:induction false} SetSize(addresses: seq<string>)
    ensures |SetOf(addresses)| <= |addresses|
    ensures NoDuplicates(addresses) ==> |SetOf(addresses)| == |addresses|
  {
    if |addresses| != 0 {
      var first, rest := addresses[0], addresses[1..];
      SetSize(rest);
      assert SetOf(addresses) == SetOf(rest) + {first};
      if NoDuplicates(addresses) {
        assert first !in rest;
      }
    }
  }

  lemma {:induction false} WithoutMembers(addresses: seq<string>, removed: seq<string>)
    ensures forall a :: a in Without(addresses, removed) <==> a in addresses && a !in removed
    ensures NoDuplicates(addresses) ==> NoDuplicates(Without(addresses, removed))
  {
    if |addresses| != 0 {
      WithoutMembers(addresses[1..], removed);
      assert forall a :: a in addresses <==> a == addresses[0] || a in addresses[1..];
    }
  }

  lemma {:induction false} DistinctMembers(addresses: seq<string>)
    ensures forall a :: a in Distinct(addresses) <==> a in addresses
    ensures NoDuplicates(Distinct(addresses))
  {
    if |addresses| != 0 {
      DistinctMembers(addresses[1..]);
      assert forall a :: a in addresses <==> a == addresses[0] || a in addresses[1..];
    }
  }

  lemma AfterMembers(change: Change, current: Option<Multisig>)
    ensures SetOf(After(change, current).cosignatories)
         == (SetOf(Cosignatories(current)) - SetOf(change.deletions)) + SetOf(change.additions)
  {
    hide NoDuplicates, Without, Distinct;
    WithoutMembers(Cosignatories(current), change.deletions);
    DistinctMembers(change.additions);
  }

  lemma SizeAfter(was: set<string>, adds: set<string>, dels: set<string>)
    requires was !! adds && dels <= was
    ensures |(was - dels) + adds| == |was| + |adds| - |dels|
  {
    assert was == (was - dels) + dels;
  }

  /** The size of the real cosignatory set after a fitting change. */
  lemma {:induction false} RealSize(change: Change, current: Option<Multisig>)
    requires ListsFit(change, current) && NoDuplicates(Cosignatories(current))
    ensures |SetOf(After(change, current).cosignatories)| == RealCosignatories(change, current)
  {
    hide After, NoDuplicates;
    AfterMembers(change, current);
    SetSize(Cosignatories(current));
    SizeAfter(SetOf(Cosignatories(current)), SetOf(change.additions), SetOf(change.deletions));
  }

  /** The validation counts the real set and the miscounted; without repetitions it counts the real set. */
  lemma {:induction false} CountedAgainstReal(change: Change, current: Option<Multisig>)
    requires ListsFit(change, current) && NoDuplicates(Cosignatories(current))
    ensures CountedCosignatories(change, current) == |SetOf(After(change, current).cosignatories)| + Miscounted(change)
    ensures NoDuplicates(change.additions) && NoDuplicates(change.deletions) ==> Miscounted(change) == 0
  {
    RealSize(change, current);
    SetSize(change.additions);
    SetSize(change.deletions);
  }

  /** For any lists, a change is accepted with minimums that are not negative exactly when the lists fit and
      the minimums would do for the real cosignatories together with the miscounted ones; for lists without
      repetitions, exactly when the lists fit and the account after it is sound. */
  lemma {:induction false} AcceptsExactly(change: Change, current: Option<Multisig>)
    requires NoDuplicates(Cosignatories(current))
    ensures var after := After(change, current);
      && (ValidateParams(change, current).Accepted? && after.minApproval >= 0 && after.minRemoval >= 0
          <==> ListsFit(change, current)
               && AreMinimums(after.minApproval, after.minRemoval, |SetOf(after.cosignatories)| + Miscounted(change)))
      && (NoDuplicates(change.additions) && NoDuplicates(change.deletions) ==>
            (ValidateParams(change, current).Accepted? && after.minApproval >= 0 && after.minRemoval >= 0
             <==> ListsFit(change, current) && IsSound(after)))
  {
    FirstWhereNone(change.additions, Cosignatories(current), true);
    FirstWhereNone(change.deletions, Cosignatories(current), false);
    if ListsFit(change, current) {
      CountedAgainstReal(change, current);
    }
  }

  lemma AcceptedFits(change: Change, current: Option<Multisig>)
    requires ValidateParams(change, current).Accepted?
    ensures ListsFit(change, current)
  {
    FirstWhereNone(change.additions, Cosignatories(current), true);
    FirstWhereNone(change.deletions, Cosignatories(current), false);
  }

  /** Which accepted changes leave a sound account: those that pass what the validation does not look at. */
  lemma {:induction false} AcceptedIsSoundExactlyWhen(change: Change, current: Option<Multisig>)
    requires NoDuplicates(Cosignatories(current)) && ValidateParams(change, current).Accepted?
    ensures IsSound(After(change, current)) <==> Guarded(change, current)
  {
    hide Without, Distinct, NoDuplicates, FirstWhere;
    AcceptedFits(change, current);
    RealSize(change, current);
    CountedAgainstReal(change, current);
  }

  /** Without repetitions only a minimum below zero gets through unnoticed. */
  lemma {:induction false} NegativeMinimumsPass(change: Change, current: Option<Multisig>)
    requires NoDuplicates(Cosignatories(current)) && ValidateParams(change, current).Accepted?
    requires Miscounted(change) == 0
    ensures IsSound(After(change, current))
        <==> NewMinApproval(change, current) >= 0 && NewMinRemoval(change, current) >= 0
  {
    AcceptsExactly(change, current);
  }

  /** For instance, from one cosignatory with minimums of one, lowering the approval minimum by two passes. */
  lemma {:induction false} NegativeMinimumExample()
    ensures ValidateParams(Change([], [], 0, -2), Some(Multisig(1, 1, ["A"]))).Accepted?
    ensures !IsSound(After(Change([], [], 0, -2), Some(Multisig(1, 1, ["A"]))))
  {
  }

  /** And a plain account that adds one cosignatory twice is given a minimum of two. */
  lemma {:induction false} RepeatedAdditionExample()
    ensures ValidateParams(Change(["B", "B"], [], 1, 2), None).Accepted?
    ensures !IsSound(After(Change(["B", "B"], [], 1, 2), None))
  {
    var change := Change(["B", "B"], [], 1, 2);
    assert change.additions[1..] == ["B"];
    AcceptedIsSoundExactlyWhen(change, None);
    assert SetOf(change.additions) == {"B"};
  }

  /** And of two cosignatories, one can be deleted twice along with both minimums. */
  lemma {:induction false} RepeatedDeletionExample()
    ensures ValidateParams(Change([], ["A", "A"], -1, -1), Some(Multisig(1, 1, ["A", "B"]))).Accepted?
    ensures !IsSound(After(Change([], ["A", "A"], -1, -1), Some(Multisig(1, 1, ["A", "B"]))))
  {
    var change, current := Change([], ["A", "A"], -1, -1), Some(Multisig(1, 1, ["A", "B"]));
    assert change.deletions[1..] == ["A"];
    assert FirstWhere(["A"], ["A", "B"], false).None? && FirstWhere(["A", "A"], ["A", "B"], false).None?;
    assert SetOf(change.deletions) == {"A"} && SetOf(change.additions) == {};
    AcceptedIsSoundExactlyWhen(change, current);
  }

  // ----- any sequence of accepted changes -----

  function AfterAll(changes: seq<Change>): Option<Multisig> {
    if |changes| == 0 then None
    else Some(After(changes[|changes| - 1], AfterAll(changes[..|changes| - 1])))
  }

  predicate AllAccepted(changes: seq<Change>) {
    |changes| > 0 ==>
      var init, last := changes[..|changes| - 1], changes[|changes| - 1];
      AllAccepted(init) && ValidateParams(last, AfterAll(init)).Accepted?
  }

  /** The account is sound after every one of the changes. */
  predicate AlwaysSound(changes: seq<Change>) {
    |changes| > 0 ==> AlwaysSound(changes[..|changes| - 1]) && IsSound(AfterAll(changes).value)
  }

  predicate AllGuarded(changes: seq<Change>) {
    |changes| > 0 ==>
      var init, last := changes[..|changes| - 1], changes[|changes| - 1];
      AllGuarded(init) && Guarded(last, AfterAll(init))
  }

  /** From a plain account, any accepted changes keep the cosignatories distinct; and the account is sound
      all along exactly when every change passes what the validation does not look at. */
  lemma {:induction false} AcceptedChangesKeepSound(changes: seq<Change>)
    requires AllAccepted(changes)
    ensures NoDuplicates(Cosignatories(AfterAll(changes)))
    ensures AlwaysSound(changes) <==> AllGuarded(changes)
  {
    hide ValidateParams, IsSound, After, ListsFit, NoDuplicates, Guarded;
    if |changes| == 0 {
      NobodyAtFirst();
    } else {
      var init, last := changes[..|changes| - 1], changes[|changes| - 1];
      AcceptedChangesKeepSound(init);
      AcceptedFits(last, AfterAll(init));
      AcceptedIsSoundExactlyWhen(last, AfterAll(init));
      AfterHasNoDuplicates(last, AfterAll(init));
    }
  }

  predicate NoneRepeated(changes: seq<Change>) {
    forall i | 0 <= i < |changes| :: NoDuplicates(changes[i].additions) && NoDuplicates(changes[i].deletions)
  }

  predicate NeverBelowZero(changes: seq<Change>) {
    |changes| > 0 ==>
      var account := AfterAll(changes).value;
      NeverBelowZero(changes[..|changes| - 1]) && account.minApproval >= 0 && account.minRemoval >= 0
  }

  /** When no address is repeated in any change, the account is sound all along exactly when no minimum ever
      falls below zero. */
  lemma {:induction false} UnrepeatedChangesKeepSound(changes: seq<Change>)
    requires AllAccepted(changes) && NoneRepeated(changes)
    ensures AlwaysSound(changes) <==> NeverBelowZero(changes)
  {
    hide ValidateParams, IsSound, ListsFit, NoDuplicates;
    if |changes| != 0 {
      var init, last := changes[..|changes| - 1], changes[|changes| - 1];
      assert NoneRepeated(init) && NoDuplicates(last.additions) && NoDuplicates(last.deletions);
      UnrepeatedChangesKeepSound(init);
      AcceptedChangesKeepSound(init);
      AcceptedFits(last, AfterAll(init));
      CountedAgainstReal(last, AfterAll(init));
      AcceptedIsSoundExactlyWhen(last, AfterAll(init));
    }
  }

  lemma NobodyAtFirst()
    ensures NoDuplicates(Cosignatories(None))
  {
  }

  lemma AfterHasNoDuplicates(change: Change, current: Option<Multisig>)
    requires ListsFit(change, current) && NoDuplicates(Cosignatories(current))
    ensures NoDuplicates(After(change, current).cosignatories)
  {
    WithoutMembers(Cosignatories(current), change.deletions);
    DistinctMembers(change.additions);
    var left, added := Without(Cosignatories(current), change.deletions), Distinct(change.additions);
    forall i, j | 0 <= i < |left| && 0 <= j < |added|
      ensures left[i] != added[j]
    {
      assert left[i] in left && added[j] in added;
    }
  }
}
