/** Collecting the cosigners of a multisig account, and choosing how to announce with them. */
module Cosigners {
  import opened Basics

  /** One round of prompts: the account of the key entered (none when the answer was empty), and whether
      to go on. Accounts are known by their address. */
  datatype Entry = Entry(account: Option<string>, more: bool)

  /** The addresses still allowed, the accounts provided, and whether the collection has ended. */
  datatype Collection = Collection(allowed: seq<string>, provided: seq<string>, ended: bool)

  function IndexOf(addresses: seq<string>, address: string): (i: nat)
    ensures i <= |addresses|
    ensures i < |addresses| <==> address in addresses
    ensures i < |addresses| ==> addresses[i] == address
  {
    if |addresses| == 0 || addresses[0] == address then 0 else 1 + IndexOf(addresses[1..], address)
  }

  function Accept(c: Collection, minApproval: int, entry: Entry): Collection {
    if entry.account.None? || entry.account.value !in c.allowed then c
    else
      var i := IndexOf(c.allowed, entry.account.value);
      var allowed, provided := c.allowed[..i] + c.allowed[i + 1..], c.provided + [entry.account.value];
      Collection(allowed, provided, |allowed| == 0 || |provided| == minApproval || !entry.more)
  }

  /** The collection after the first `n` entries; entries after its end are not asked for. */
  function Collect(expected: seq<string>, minApproval: int, entries: seq<Entry>, n: nat): Collection
    requires n <= |entries|
  {
    if n == 0 then Collection(expected, [], false)
    else
      var c := Collect(expected, minApproval, entries, n - 1);
      if c.ended then c else Accept(c, minApproval, entries[n - 1])
  }

  class AccountArray {
    var items: seq<string>
  }

  /** Prompts until the collection ends, or the entries given run out. */
  method PromptAccounts(expected: seq<string>, minApproval: int, entries: seq<Entry>)
    returns (providedAccounts: seq<string>, allowedAddresses: seq<string>, ended: bool)
    ensures Collection(allowedAddresses, providedAccounts, ended) == Collect(expected, minApproval, entries, |entries|)
  {
    providedAccounts, allowedAddresses, ended := [], expected, false;
    var n := 0;
    while n < |entries| && !ended
      invariant 0 <= n <= |entries|
      invariant Collection(allowedAddresses, providedAccounts, ended) == Collect(expected, minApproval, entries, n)
    {
      var account := entries[n].account;
      if account.Some? {
        var at := IndexOf(allowedAddresses, account.value);
        if at < |allowedAddresses| {
          allowedAddresses := allowedAddresses[..at] + allowedAddresses[at + 1..];
          providedAccounts := providedAccounts + [account.value];
          if |allowedAddresses| == 0 || |providedAccounts| == minApproval || !entries[n].more {
            ended := true;
          }
        }
      }
      n := n + 1;
    }
    CollectStays(expected, minApproval, entries, n);
  }

  lemma {:induction false} CollectStays(expected: seq<string>, minApproval: int, entries: seq<Entry>, n: nat)
    requires n <= |entries| && (n == |entries| || Collect(expected, minApproval, entries, n).ended)
    ensures Collect(expected, minApproval, entries, |entries|) == Collect(expected, minApproval, entries, n)
    decreases |entries| - n
  {
    if n < |entries| {
      CollectStays(expected, minApproval, entries, n + 1);
    }
  }

  /** The first account, in the order of entry, that is known to the network and not empty. */
  function BestCosigner(cosigners: seq<string>, funded: string -> bool): Option<string> {
    if |cosigners| == 0 then None
    else if funded(cosigners[0]) then Some(cosigners[0])
    else BestCosigner(cosigners[1..], funded)
  }

  method GetBestCosigner(cosigners: seq<string>, funded: string -> bool) returns (r: Option<string>)
    ensures r == BestCosigner(cosigners, funded)
  {
    for i := 0 to |cosigners|
      invariant BestCosigner(cosigners, funded) == BestCosigner(cosigners[i..], funded)
    {
      if funded(cosigners[i]) {
        return Some(cosigners[i]);
      }
    }
    return None;
  }

  /** Collects into the caller's array; `waiting` when the prompts have not come to an end. */
  method GetMultisigBestCosigner(cosigners: AccountArray, expected: seq<string>, minApproval: int,
                                 entries: seq<Entry>, funded: string -> bool)
    returns (best: Option<string>, waiting: bool)
    modifies cosigners
    ensures var c := Collect(expected, minApproval, entries, |entries|);
      && waiting == !c.ended
      && (!waiting ==>
            cosigners.items == old(cosigners.items) + c.provided && best == BestCosigner(cosigners.items, funded))
      && (waiting ==> cosigners.items == old(cosigners.items) && best == None)
  {
    var provided, allowed, ended := PromptAccounts(expected, minApproval, entries);
    best, waiting := None, !ended;
    if ended {
      cosigners.items := cosigners.items + provided;
      best := GetBestCosigner(cosigners.items, funded);
    }
  }

  datatype Decision =
    | Waiting
    | Skip
    | Complete(signer: string, cosignatories: seq<string>)
    | Bonded(signer: string, cosignatories: seq<string>, requiredCosignatures: int)

  function Others(cosigners: seq<string>, signer: string): seq<string> {
    if |cosigners| == 0 then []
    else (if cosigners[0] == signer then [] else [cosigners[0]]) + Others(cosigners[1..], signer)
  }

  /** How the transactions of a multisig main account are announced. */
  method AnnounceMultisig(expected: seq<string>, minApproval: int, entries: seq<Entry>, funded: string -> bool)
    returns (d: Decision)
    ensures d == Announced(expected, minApproval, entries, funded)
  {
    var cosigners := new AccountArray;
    cosigners.items := [];
    var best, waiting := GetMultisigBestCosigner(cosigners, expected, minApproval, entries, funded);
    assert !waiting ==> cosigners.items == Collect(expected, minApproval, entries, |entries|).provided;
    if waiting {
      return Waiting;
    }
    if best.None? {
      return Skip;
    }
    var cosignatories := Others(cosigners.items, best.value);
    if |cosigners.items| >= minApproval {
      return Complete(best.value, cosignatories);
    }
    return Bonded(best.value, cosignatories, minApproval);
  }

  function Announced(expected: seq<string>, minApproval: int, entries: seq<Entry>, funded: string -> bool): Decision {
    var c := Collect(expected, minApproval, entries, |entries|);
    var best := BestCosigner(c.provided, funded);
    if !c.ended then Waiting
    else if best.None? then Skip
    else if |c.provided| >= minApproval then Complete(best.value, Others(c.provided, best.value))
    else Bonded(best.value, Others(c.provided, best.value), minApproval)
  }

  // ----- what the collection keeps -----

  lemma SpliceKeepsTheRest(addresses: seq<string>, i: nat)
    requires i < |addresses|
    ensures multiset(addresses[..i] + addresses[i + 1..]) + multiset{addresses[i]} == multiset(addresses)
  {
    assert addresses == addresses[..i] + [addresses[i]] + addresses[i + 1..];
  }

  lemma AcceptPartitions(c: Collection, minApproval: int, entry: Entry)
    ensures var after := Accept(c, minApproval, entry);
      multiset(after.allowed) + multiset(after.provided) == multiset(c.allowed) + multiset(c.provided)
  {
    if entry.account.Some? && entry.account.value in c.allowed {
      var i, after := IndexOf(c.allowed, entry.account.value), Accept(c, minApproval, entry);
      SpliceKeepsTheRest(c.allowed, i);
      assert multiset(after.provided) == multiset(c.provided) + multiset{entry.account.value};
      MoveOne(multiset(after.allowed), multiset(c.allowed), multiset(c.provided), entry.account.value);
    }
  }

  lemma MoveOne(less: multiset<string>, more: multiset<string>, other: multiset<string>, x: string)
    requires less + multiset{x} == more
    ensures less + (other + multiset{x}) == more + other
  {
  }

  /** At every step the allowed and the provided addresses together are the expected ones. */
  lemma {:induction false} CollectPartitions(expected: seq<string>, minApproval: int, entries: seq<Entry>, n: nat)
    requires n <= |entries|
    ensures var c := Collect(expected, minApproval, entries, n);
      multiset(c.allowed) + multiset(c.provided) == multiset(expected)
  {
    hide Accept;
    if n != 0 {
      CollectPartitions(expected, minApproval, entries, n - 1);
      AcceptPartitions(Collect(expected, minApproval, entries, n - 1), minApproval, entries[n - 1]);
    }
  }

  /** Entry by entry, until the collection ends: a key of an allowed account moves that account from the allowed ones
      to the end of the provided ones, and then the collection goes on only if someone is left, the minimum is
      not reached, and the user wants to; any other key, or none, changes nothing. */
  lemma {:induction false} CollectNext(expected: seq<string>, minApproval: int, entries: seq<Entry>, n: nat)
    requires n < |entries|
    ensures var c, after := Collect(expected, minApproval, entries, n), Collect(expected, minApproval, entries, n + 1);
      && Collect(expected, minApproval, entries, 0) == Collection(expected, [], false)
      && (!Accepts(expected, minApproval, entries, n) ==> after == c)
      && (Accepts(expected, minApproval, entries, n) ==>
            && after.provided == c.provided + [entries[n].account.value]
            && (exists i | 0 <= i < |c.allowed| ::
                  c.allowed[i] == entries[n].account.value && after.allowed == c.allowed[..i] + c.allowed[i + 1..])
            && (after.ended <==> after.allowed == [] || |after.provided| == minApproval || !entries[n].more))
  {
  }

  /** The entry is asked for and names an account still allowed. */
  predicate Accepts(expected: seq<string>, minApproval: int, entries: seq<Entry>, n: nat)
    requires n < |entries|
  {
    var c := Collect(expected, minApproval, entries, n);
    !c.ended && entries[n].account.Some? && entries[n].account.value in c.allowed
  }

  /** With a positive minimum no more than the minimum is ever collected; and a collection has ended exactly when the
      minimum is reached, nobody is left to ask, or the user declined to go on after an accepted key. */
  lemma {:induction false} CollectEnds(expected: seq<string>, minApproval: int, entries: seq<Entry>, n: nat)
    requires n <= |entries| && 1 <= minApproval && |expected| > 0
    ensures var c := Collect(expected, minApproval, entries, n);
      && |c.provided| <= minApproval
      && |c.allowed| + |c.provided| == |expected|
      && (c.ended ==> |c.provided| > 0)
      && (c.ended <==> || |c.provided| == minApproval
                       || |c.allowed| == 0
                       || exists i | 0 <= i < n :: Accepts(expected, minApproval, entries, i) && !entries[i].more)
  {
    hide Collect, Accepts;
    if n == 0 {
      NothingCollected(expected, minApproval, entries);
    } else {
      CollectEnds(expected, minApproval, entries, n - 1);
      CollectNext(expected, minApproval, entries, n - 1);
      AcceptsWhenOpen(expected, minApproval, entries, n - 1);
    }
  }

  lemma NothingCollected(expected: seq<string>, minApproval: int, entries: seq<Entry>)
    ensures Collect(expected, minApproval, entries, 0) == Collection(expected, [], false)
  {
  }

  lemma AcceptsWhenOpen(expected: seq<string>, minApproval: int, entries: seq<Entry>, n: nat)
    requires n < |entries|
    ensures Accepts(expected, minApproval, entries, n) ==> !Collect(expected, minApproval, entries, n).ended
  {
  }

  /** Declining with fewer than the minimum entered, one of them with funds, makes a bonded aggregate: the first
      with funds signs, the others entered cosign, and the minimum is what it asks for. */
  lemma {:induction false} DeclinedIsBonded(expected: seq<string>, minApproval: int, entries: seq<Entry>, n: nat,
                                            funded: string -> bool, i: nat)
    requires n < |entries| && Accepts(expected, minApproval, entries, n) && !entries[n].more
    requires NoDuplicates(expected)
    requires var provided := Collect(expected, minApproval, entries, n).provided + [entries[n].account.value];
      |provided| < minApproval && i < |provided| && funded(provided[i]) && forall j | 0 <= j < i :: !funded(provided[j])
    ensures var provided := Collect(expected, minApproval, entries, n).provided + [entries[n].account.value];
      Announced(expected, minApproval, entries, funded)
      == Bonded(provided[i], provided[..i] + provided[i + 1..], minApproval)
  {
    hide Collect, Accepts, BestCosigner, Others;
    var c := Collect(expected, minApproval, entries, n + 1);
    CollectNext(expected, minApproval, entries, n);
    CollectStays(expected, minApproval, entries, n + 1);
    CollectPartitions(expected, minApproval, entries, n + 1);
    ProvidedAreExpected(c, expected);
    FirstFundedIsBest(c.provided, funded, i);
    OthersKeepOrder(c.provided, i);
  }

  lemma {:induction false} FirstFundedIsBest(cosigners: seq<string>, funded: string -> bool, i: nat)
    requires i < |cosigners| && funded(cosigners[i]) && forall j | 0 <= j < i :: !funded(cosigners[j])
    ensures BestCosigner(cosigners, funded) == Some(cosigners[i])
  {
    if i != 0 {
      FirstFundedIsBest(cosigners[1..], funded, i - 1);
    }
  }

  lemma {:induction false} OthersKeepOrder(cosigners: seq<string>, i: nat)
    requires NoDuplicates(cosigners) && i < |cosigners|
    ensures Others(cosigners, cosigners[i]) == cosigners[..i] + cosigners[i + 1..]
  {
    var rest := cosigners[1..];
    if i == 0 {
      assert cosigners[0] !in rest;
      OthersAndSigner(rest, cosigners[0]);
    } else {
      OthersKeepOrder(rest, i - 1);
      assert cosigners[..i] == [cosigners[0]] + rest[..i - 1];
      assert cosigners[i + 1..] == rest[i..];
    }
  }

  lemma {:induction false} OthersAndSigner(cosigners: seq<string>, signer: string)
    requires NoDuplicates(cosigners)
    ensures signer in cosigners ==> multiset(Others(cosigners, signer)) + multiset{signer} == multiset(cosigners)
    ensures signer !in cosigners ==> Others(cosigners, signer) == cosigners
  {
    if |cosigners| != 0 {
      OthersAndSigner(cosigners[1..], signer);
      assert cosigners == [cosigners[0]] + cosigners[1..];
      assert cosigners[0] !in cosigners[1..];
    }
  }

  lemma {:induction false} BestIsFunded(cosigners: seq<string>, funded: string -> bool)
    ensures BestCosigner(cosigners, funded).Some? ==>
      exists i | 0 <= i < |cosigners| :: cosigners[i] == BestCosigner(cosigners, funded).value && funded(cosigners[i])
                                         && forall j | 0 <= j < i :: !funded(cosigners[j])
    ensures BestCosigner(cosigners, funded).None? <==> forall a | a in cosigners :: !funded(a)
  {
    if |cosigners| != 0 {
      BestIsFunded(cosigners[1..], funded);
      assert forall a :: a in cosigners <==> a == cosigners[0] || a in cosigners[1..];
    }
  }

  lemma {:induction false} DistinctIsSimple(addresses: seq<string>)
    ensures NoDuplicates(addresses) <==> forall a :: multiset(addresses)[a] <= 1
  {
    if |addresses| != 0 {
      var first, rest := addresses[0], addresses[1..];
      DistinctIsSimple(rest);
      assert addresses == [first] + rest;
      assert multiset(addresses) == multiset{first} + multiset(rest);
      assert forall a :: multiset(addresses)[a] == multiset(rest)[a] + if a == first then 1 else 0;
      assert first in rest <==> multiset(rest)[first] >= 1;
      assert NoDuplicates(addresses) <==> NoDuplicates(rest) && first !in rest;
    }
  }

  /** With distinct cosignatories and a minimum they can meet, the accounts collected are distinct expected ones.
      Nothing is announced while the collection goes on, or when none of them has funds. An aggregate complete is
      chosen exactly when the minimum was entered and one of the entered accounts has funds; its signer has funds,
      and signer and cosignatories are precisely the entered accounts. With fewer entered, it is a bonded
      aggregate of those. */
  lemma {:induction false} CompleteExactlyWhenMinimumEntered(expected: seq<string>, minApproval: int,
                                                             entries: seq<Entry>, funded: string -> bool)
    requires NoDuplicates(expected) && 1 <= minApproval <= |expected|
    ensures var c, d := Collect(expected, minApproval, entries, |entries|),
                        Announced(expected, minApproval, entries, funded);
      var provided := c.provided;
      && NoDuplicates(provided) && (forall a | a in provided :: a in expected) && |provided| <= minApproval
      && (d.Waiting? <==> !c.ended)
      && (d.Skip? <==> c.ended && forall a | a in provided :: !funded(a))
      && (d.Complete? <==> c.ended && |provided| == minApproval && exists a :: a in provided && funded(a))
      && (d.Bonded? <==> c.ended && |provided| < minApproval && exists a :: a in provided && funded(a))
      && (d.Bonded? ==> d.requiredCosignatures == minApproval)
      && (d.Complete? || d.Bonded?
          ==> funded(d.signer) && multiset(d.cosignatories) + multiset{d.signer} == multiset(provided))
  {
    var c := Collect(expected, minApproval, entries, |entries|);
    CollectPartitions(expected, minApproval, entries, |entries|);
    CollectEnds(expected, minApproval, entries, |entries|);
    ProvidedAreExpected(c, expected);
    BestIsFunded(c.provided, funded);
    var best := BestCosigner(c.provided, funded);
    if best.Some? {
      OthersAndSigner(c.provided, best.value);
    }
  }

  /** For instance, one of two cosigners entered, with funds, and no more: a bonded aggregate. */
  lemma {:induction false} DeclinedExample()
    ensures Announced(["A", "B"], 2, [Entry(Some("A"), false)], address => true) == Bonded("A", [], 2)
  {
    var entries, funded := [Entry(Some("A"), false)], (address: string) => true;
    assert Collect(["A", "B"], 2, entries, 0) == Collection(["A", "B"], [], false);
    assert Accepts(["A", "B"], 2, entries, 0);
    DeclinedIsBonded(["A", "B"], 2, entries, 0, funded, 0);
  }

  /** For instance, a single cosigner without funds reaches the minimum and still nothing is announced. */
  lemma {:induction false} UnfundedExample()
    ensures Announced(["A"], 1, [Entry(Some("A"), false)], address => false) == Skip
  {
    var entries, funded := [Entry(Some("A"), false)], (address: string) => false;
    assert Collect(["A"], 1, entries, 0) == Collection(["A"], [], false);
    assert Collect(["A"], 1, entries, 1) == Accept(Collection(["A"], [], false), 1, entries[0]);
    assert Collect(["A"], 1, entries, 1) == Collection([], ["A"], true);
    assert BestCosigner(["A"], funded).None?;
  }

  lemma ProvidedAreExpected(c: Collection, expected: seq<string>)
    requires NoDuplicates(expected) && multiset(c.allowed) + multiset(c.provided) == multiset(expected)
    ensures NoDuplicates(c.provided) && forall a | a in c.provided :: a in expected && a !in c.allowed
  {
    DistinctIsSimple(expected);
    DistinctIsSimple(c.provided);
    forall a
      ensures multiset(c.provided)[a] <= 1
      ensures a in c.provided ==> a in expected && a !in c.allowed
    {
      assert multiset(expected)[a] == multiset(c.allowed)[a] + multiset(c.provided)[a];
      assert a in c.provided <==> multiset(c.provided)[a] >= 1;
      assert a in c.allowed <==> multiset(c.allowed)[a] >= 1;
      assert a in expected <==> multiset(expected)[a] >= 1;
    }
  }
}
