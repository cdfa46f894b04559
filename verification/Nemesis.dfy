/** Distributing the supply of the nemesis mosaics over accounts, nodes and provided balances. */
module Nemesis {
  import opened Basics

  datatype Distribution = Distribution(address: string, amount: int)

  datatype NodePreset = NodePreset(balances: seq<int>, excludeFromNemesis: bool)


  // ----- sums -----

  function Total(ds: seq<Distribution>): int {
    if |ds| == 0 then 0 else ds[0].amount + Total(ds[1..])
  }

  predicate NoneNegative(ds: seq<Distribution>) {
    forall i | 0 <= i < |ds| :: ds[i].amount >= 0
  }

  function SumOf(ds: seq<Distribution>): Result<int> {
    if NoneNegative(ds) then Ok(Total(ds)) else Err("Nemesis distribution balance cannot be less than 0")
  }

  function Positive(ds: seq<Distribution>): seq<Distribution> {
    if |ds| == 0 then []
    else if ds[0].amount > 0 then [ds[0]] + Positive(ds[1..])
    else Positive(ds[1..])
  }

  lemma {:induction false} TotalConcat(a: seq<Distribution>, b: seq<Distribution>)
    ensures Total(a + b) == Total(a) + Total(b)
  {
    if |a| == 0 {
      assert a + b == b;
    } else {
      assert (a + b)[1..] == a[1..] + b;
      TotalConcat(a[1..], b);
    }
  }

  lemma {:induction false} PositiveConcat(a: seq<Distribution>, b: seq<Distribution>)
    ensures Positive(a + b) == Positive(a) + Positive(b)
  {
    if |a| == 0 {
      assert a + b == b;
    } else {
      assert (a + b)[1..] == a[1..] + b;
      PositiveConcat(a[1..], b);
    }
  }

  lemma {:induction false} PositiveKeepsTotal(ds: seq<Distribution>)
    requires NoneNegative(ds)
    ensures Total(Positive(ds)) == Total(ds)
  {
    if |ds| != 0 {
      PositiveKeepsTotal(ds[1..]);
      assert ds[0].amount > 0 ==> ([ds[0]] + Positive(ds[1..]))[1..] == Positive(ds[1..]);
    }
  }

  lemma {:induction false} PositiveMembers(ds: seq<Distribution>)
    ensures forall i | 0 <= i < |Positive(ds)| :: Positive(ds)[i].amount > 0 && Positive(ds)[i] in ds
  {
    if |ds| != 0 {
      PositiveMembers(ds[1..]);
    }
  }

  lemma {:induction false} TotalBounds(ds: seq<Distribution>, low: int, high: int)
    requires forall d | d in ds :: low <= d.amount <= high
    ensures low * |ds| <= Total(ds) <= high * |ds|
  {
    if |ds| != 0 {
      var rest := ds[1..];
      assert ds[0] in ds;
      TotalBounds(rest, low, high);
      TimesNext(low, |rest|);
      TimesNext(high, |rest|);
    }
  }

  lemma TimesNext(x: int, n: nat)
    ensures x * (n + 1) == x * n + x
  {
  }

  /** Adding up non-negative amounts, every intermediate sum stays below the total. */
  lemma {:induction false} PartialSums(ds: seq<Distribution>, n: nat)
    requires NoneNegative(ds) && n <= |ds|
    ensures 0 <= Total(ds[..n]) <= Total(ds)
  {
    assert ds == ds[..n] + ds[n..];
    TotalConcat(ds[..n], ds[n..]);
    TotalIsNonNegative(ds[..n]);
    TotalIsNonNegative(ds[n..]);
  }

  lemma {:induction false} TotalIsNonNegative(ds: seq<Distribution>)
    requires NoneNegative(ds)
    ensures Total(ds) >= 0
  {
    if |ds| != 0 {
      TotalIsNonNegative(ds[1..]);
    }
  }

  // ----- who gets what -----

  function GetBalance(presets: seq<NodePreset>, nodeIndex: nat, mosaicIndex: nat): Option<int> {
    if nodeIndex >= |presets| then None
    else if mosaicIndex < |presets[nodeIndex].balances| then Some(presets[nodeIndex].balances[mosaicIndex])
    else if presets[nodeIndex].excludeFromNemesis then Some(0)
    else None
  }

  /** The provided balances of the first `n` nodes. */
  function NodeBalances(presets: seq<NodePreset>, nodes: seq<string>, mosaicIndex: nat, n: nat): seq<Distribution>
    requires n <= |nodes|
  {
    if n == 0 then []
    else
      NodeBalances(presets, nodes, mosaicIndex, n - 1)
      + match GetBalance(presets, n - 1, mosaicIndex)
        case Some(balance) => [Distribution(nodes[n - 1], balance)]
        case None => []
  }

  /** The main accounts, among the first `n` nodes, without a provided balance. */
  function DynamicNodes(presets: seq<NodePreset>, nodes: seq<string>, mosaicIndex: nat, n: nat): seq<string>
    requires n <= |nodes|
  {
    if n == 0 then []
    else
      DynamicNodes(presets, nodes, mosaicIndex, n - 1)
      + if GetBalance(presets, n - 1, mosaicIndex).None? then [nodes[n - 1]] else []
  }

  function MaxHarvesterBalance(mosaicCount: nat, mosaicIndex: nat, maxHarvesterBalance: int): int {
    if (mosaicCount == 1 && mosaicIndex == 0) || (mosaicCount > 1 && mosaicIndex == 1)
    then maxHarvesterBalance else MAX_SAFE_INTEGER
  }

  function Equal(addresses: seq<string>, amount: int): seq<Distribution> {
    seq(|addresses|, i requires 0 <= i < |addresses| => Distribution(addresses[i], amount))
  }

  function Min(a: int, b: int): int {
    if a < b then a else b
  }

  function Generated(accounts: seq<string>, nodes: seq<string>, share: int, cap: int): seq<Distribution> {
    Equal(accounts, share) + Equal(nodes, Min(cap, share))
  }

  /** The whole part every dynamic account gets before caps. */
  function Share(supply: int, provided: seq<Distribution>, k: nat): int {
    if k == 0 then 0 else (supply - Total(provided)) / k
  }

  /** Exactly when a distribution succeeds. */
  predicate CanDistribute(supply: int, provided: seq<Distribution>, accounts: nat, nodes: nat, cap: int) {
    && NoneNegative(provided)
    && Total(provided) <= supply
    && accounts + nodes >= 1
    && Share(supply, provided, accounts + nodes) >= 1
    && (if accounts == 0 then cap >= 1 else nodes == 0 || cap >= 0)
  }

  /** The distribution of a success: the first dynamic account takes the remainder, the other positive
      shares follow, then the positive provided balances, untouched. */
  function Distributed(supply: int, provided: seq<Distribution>, accounts: seq<string>, nodes: seq<string>,
                       cap: int): seq<Distribution>
    requires |accounts| + |nodes| >= 1
  {
    var generated := Generated(accounts, nodes, Share(supply, provided, |accounts| + |nodes|), cap);
    [Distribution(generated[0].address, supply - Total(provided) - Total(generated[1..]))]
    + (Positive(generated[1..]) + Positive(provided))
  }

  class Mosaic {
    const supply: int
    var currencyDistributions: seq<Distribution>

    constructor (supply: int, currencyDistributions: seq<Distribution>)
      ensures this.supply == supply && this.currencyDistributions == currencyDistributions
    {
      this.supply := supply;
      this.currencyDistributions := currencyDistributions;
    }
  }

  /** Everything provided for a mosaic: its own list, then the balances of the nodes. */
  function Provided(initial: seq<Distribution>, presets: seq<NodePreset>, nodes: seq<string>,
                    mosaicIndex: nat): seq<Distribution> {
    initial + NodeBalances(presets, nodes, mosaicIndex, |nodes|)
  }

  /** The provided balances add up, or the reason why the distribution fails before any is generated. */
  function RemainingSupply(supply: int, provided: seq<Distribution>): Result<int> {
    match SumOf(provided)
    case Err(e) => Err(e)
    case Ok(sum) =>
      if supply - sum < 0 then Err("fixed distributed supply is greater than mosaic total supply")
      else Ok(supply - sum)
  }

  method DistributeMosaic(m: Mosaic, accounts: seq<string>, presets: seq<NodePreset>, nodes: seq<string>,
                          mosaicIndex: nat, cap: int)
    returns (r: Result<()>)
    modifies m
    ensures var provided := Provided(old(m.currencyDistributions), presets, nodes, mosaicIndex);
      var dynamic := DynamicNodes(presets, nodes, mosaicIndex, |nodes|);
      && (r.Ok? <==> CanDistribute(m.supply, provided, |accounts|, |dynamic|, cap))
      && (r.Ok? ==> m.currencyDistributions == Distributed(m.supply, provided, accounts, dynamic, cap))
  {
    var provided := m.currencyDistributions;
    var nodeMainAccounts := [];
    for i := 0 to |nodes|
      invariant provided == m.currencyDistributions + NodeBalances(presets, nodes, mosaicIndex, i)
      invariant nodeMainAccounts == DynamicNodes(presets, nodes, mosaicIndex, i)
      invariant m.currencyDistributions == old(m.currencyDistributions)
    {
      match GetBalance(presets, i, mosaicIndex)
      case Some(balance) => provided := provided + [Distribution(nodes[i], balance)];
      case None => nodeMainAccounts := nodeMainAccounts + [nodes[i]];
    }
    r := DistributeRemaining(m, provided, accounts, nodeMainAccounts, cap);
  }

  method DistributeRemaining(m: Mosaic, provided: seq<Distribution>, accounts: seq<string>,
                             nodeMainAccounts: seq<string>, cap: int)
    returns (r: Result<()>)
    modifies m
    ensures r.Ok? <==> CanDistribute(m.supply, provided, |accounts|, |nodeMainAccounts|, cap)
    ensures r.Ok? ==> m.currencyDistributions == Distributed(m.supply, provided, accounts, nodeMainAccounts, cap)
  {
    var remaining := RemainingSupply(m.supply, provided);
    if remaining.Err? {
      return Err(remaining.error);
    }
    var dynamicAccounts := |accounts| + |nodeMainAccounts|;
    var amountPerAccount := if dynamicAccounts == 0 then 0 else remaining.value / dynamicAccounts;
    var generated := Generated(accounts, nodeMainAccounts, amountPerAccount, cap);
    m.currencyDistributions := Positive(generated + provided);
    var generatedSupply := SumOf(Tail(generated));
    if generatedSupply.Err? {
      GeneratedRefused(m.supply, provided, accounts, nodeMainAccounts, cap);
      return Err(generatedSupply.error);
    }
    if |m.currencyDistributions| == 0 {
      NothingPositive(m.supply, provided, accounts, nodeMainAccounts, cap);
      return Err("Cannot set properties of undefined");
    }
    var first := m.supply - (m.supply - remaining.value) - generatedSupply.value;
    m.currencyDistributions := Overwrite(m.currencyDistributions, first);
    var supplied := SumOf(m.currencyDistributions);
    OverwriteOutcome(m.supply, provided, accounts, nodeMainAccounts, cap);
    if supplied.Err? {
      return Err(supplied.error);
    }
    if m.supply != supplied.value {
      return Err("Invalid nemgen total supplied value");
    }
    return Ok(());
  }

  /** What a mosaic is distributed over. */
  datatype Dynamic = Dynamic(provided: seq<Distribution>, accounts: seq<string>, nodes: seq<string>, cap: int)

  function DynamicOf(initial: seq<Distribution>, accounts: seq<string>, presets: seq<NodePreset>,
                     nodes: seq<string>, mosaicCount: nat, mosaicIndex: nat, maxHarvesterBalance: int): Dynamic {
    Dynamic(Provided(initial, presets, nodes, mosaicIndex), accounts,
            DynamicNodes(presets, nodes, mosaicIndex, |nodes|),
            MaxHarvesterBalance(mosaicCount, mosaicIndex, maxHarvesterBalance))
  }

  predicate CanDistributeOver(supply: int, d: Dynamic) {
    CanDistribute(supply, d.provided, |d.accounts|, |d.nodes|, d.cap)
  }

  predicate IsDistributed(supply: int, d: Dynamic, result: seq<Distribution>) {
    CanDistributeOver(supply, d) && result == Distributed(supply, d.provided, d.accounts, d.nodes, d.cap)
  }

  /** All mosaics in turn, up to the first that cannot be distributed. */
  method ProcessNemesisBalances(mosaics: seq<Mosaic>, accounts: seq<seq<string>>, presets: seq<NodePreset>,
                                nodes: seq<string>, maxHarvesterBalance: int)
    returns (r: Result<()>)
    requires |accounts| == |mosaics|
    requires forall i, j | 0 <= i < j < |mosaics| :: mosaics[i] != mosaics[j]
    modifies mosaics
    ensures r.Ok? <==> forall i | 0 <= i < |mosaics| ::
      CanDistributeOver(mosaics[i].supply, DynamicOf(old(mosaics[i].currencyDistributions), accounts[i], presets, nodes,
                                                     |mosaics|, i, maxHarvesterBalance))
    ensures r.Ok? ==> forall i | 0 <= i < |mosaics| ::
      IsDistributed(mosaics[i].supply, DynamicOf(old(mosaics[i].currencyDistributions), accounts[i], presets, nodes,
                                                 |mosaics|, i, maxHarvesterBalance), mosaics[i].currencyDistributions)
  {
    hide CanDistribute, Provided, DynamicNodes;
    for n := 0 to |mosaics|
      invariant forall i | n <= i < |mosaics| ::
        mosaics[i].currencyDistributions == old(mosaics[i].currencyDistributions)
      invariant forall i | 0 <= i < n ::
        IsDistributed(mosaics[i].supply, DynamicOf(old(mosaics[i].currencyDistributions), accounts[i], presets, nodes,
                                                   |mosaics|, i, maxHarvesterBalance), mosaics[i].currencyDistributions)
    {
      var cap := MaxHarvesterBalance(|mosaics|, n, maxHarvesterBalance);
      r := DistributeMosaic(mosaics[n], accounts[n], presets, nodes, n, cap);
      if r.Err? {
        return;
      }
    }
    return Ok(());
  }

  // ----- why the outcome is as stated -----

  lemma {:induction false} TotalOfEqual(ds: seq<Distribution>, amount: int)
    requires forall i | 0 <= i < |ds| :: ds[i].amount == amount
    ensures Total(ds) == |ds| * amount
  {
    if |ds| != 0 {
      TotalOfEqual(ds[1..], amount);
    }
  }

  lemma {:induction false} NothingAboveZero(ds: seq<Distribution>)
    requires forall i | 0 <= i < |ds| :: ds[i].amount <= 0
    ensures Positive(ds) == [] && (NoneNegative(ds) ==> Total(ds) == 0)
  {
    if |ds| != 0 {
      NothingAboveZero(ds[1..]);
    }
  }

  /** The total of the generated shares but the first. */
  lemma {:induction false} TailTotal(accounts: seq<string>, nodes: seq<string>, share: int, cap: int)
    requires |accounts| + |nodes| >= 1
    ensures Total(Generated(accounts, nodes, share, cap)[1..])
         == if |accounts| >= 1 then (|accounts| - 1) * share + |nodes| * Min(cap, share)
            else (|nodes| - 1) * Min(cap, share)
  {
    var a, n := Equal(accounts, share), Equal(nodes, Min(cap, share));
    TotalOfEqual(n, Min(cap, share));
    if |accounts| >= 1 {
      assert (a + n)[1..] == a[1..] + n;
      TotalConcat(a[1..], n);
      TotalOfEqual(a[1..], share);
    } else {
      assert (a + n)[1..] == n[1..];
      TotalOfEqual(n[1..], Min(cap, share));
    }
  }

  lemma GeneratedRefused(supply: int, provided: seq<Distribution>, accounts: seq<string>, nodes: seq<string>, cap: int)
    requires RemainingSupply(supply, provided).Ok?
    requires var g := Generated(accounts, nodes, Share(supply, provided, |accounts| + |nodes|), cap);
      |g| > 0 && SumOf(g[1..]).Err?
    ensures !CanDistribute(supply, provided, |accounts|, |nodes|, cap)
  {
    var g := Generated(accounts, nodes, Share(supply, provided, |accounts| + |nodes|), cap);
    var i :| 0 <= i < |g[1..]| && g[1..][i].amount < 0;
    assert g[i + 1].amount < 0;
  }

  lemma NothingPositive(supply: int, provided: seq<Distribution>, accounts: seq<string>, nodes: seq<string>, cap: int)
    requires RemainingSupply(supply, provided).Ok?
    requires Positive(Generated(accounts, nodes, Share(supply, provided, |accounts| + |nodes|), cap) + provided) == []
    ensures !CanDistribute(supply, provided, |accounts|, |nodes|, cap)
  {
    var g := Generated(accounts, nodes, Share(supply, provided, |accounts| + |nodes|), cap);
    if |g| > 0 {
      assert (g + provided)[0] == g[0];
    }
  }

  function Tail(ds: seq<Distribution>): seq<Distribution> {
    if |ds| == 0 then [] else ds[1..]
  }

  /** Setting the amount of the first entry. */
  function Overwrite(ds: seq<Distribution>, amount: int): seq<Distribution>
    requires |ds| > 0
  {
    ds[0 := ds[0].(amount := amount)]
  }

  lemma OverwriteFirst(x: Distribution, rest: seq<Distribution>, amount: int)
    ensures Overwrite([x] + rest, amount) == [Distribution(x.address, amount)] + rest
    ensures Total(Overwrite([x] + rest, amount)) == amount + Total(rest)
    ensures NoneNegative(rest) ==> (NoneNegative(Overwrite([x] + rest, amount)) <==> amount >= 0)
  {
    var after := [Distribution(x.address, amount)] + rest;
    assert Overwrite([x] + rest, amount) == after;
    assert after[0].amount == amount && after[1..] == rest;
    assert forall i | 0 <= i < |rest| :: after[i + 1] == rest[i];
  }

  /** What is left of some non-negative entries is non-negative and has the same total. */
  lemma PositiveFacts(a: seq<Distribution>, b: seq<Distribution>)
    requires NoneNegative(a) && NoneNegative(b)
    ensures NoneNegative(Positive(a) + Positive(b))
    ensures Total(Positive(a) + Positive(b)) == Total(a) + Total(b)
  {
    TotalConcat(Positive(a), Positive(b));
    PositiveKeepsTotal(a);
    PositiveKeepsTotal(b);
    PositiveMembers(a);
    PositiveMembers(b);
  }

  lemma PositiveWithFirst(g: seq<Distribution>, provided: seq<Distribution>)
    requires |g| > 0 && g[0].amount > 0
    ensures Positive(g + provided) == [g[0]] + (Positive(g[1..]) + Positive(provided))
  {
    PositiveConcat(g, provided);
  }

  /** The entry that is overwritten is the first generated share: the amounts then add up. */
  lemma OverwriteShare(supply: int, provided: seq<Distribution>, g: seq<Distribution>)
    requires |g| > 0 && g[0].amount > 0 && NoneNegative(g[1..]) && NoneNegative(provided)
    requires supply - Total(provided) - Total(g[1..]) >= 0
    ensures |Positive(g + provided)| > 0
    ensures var amount := supply - Total(provided) - Total(g[1..]);
      Overwrite(Positive(g + provided), amount)
          == [Distribution(g[0].address, amount)] + (Positive(g[1..]) + Positive(provided))
    ensures SumOf(Overwrite(Positive(g + provided), supply - Total(provided) - Total(g[1..]))) == Ok(supply)
  {
    hide Positive, Total, Overwrite, NoneNegative;
    PositiveWithFirst(g, provided);
    PositiveFacts(g[1..], provided);
    OverwriteFirst(g[0], Positive(g[1..]) + Positive(provided), supply - Total(provided) - Total(g[1..]));
  }

  /** When nothing generated is above zero, the overwritten entry is a provided one, and its old amount is
      missing from the sum. */
  lemma OverwriteProvided(supply: int, provided: seq<Distribution>, g: seq<Distribution>)
    requires NoneNegative(provided)
    requires forall i | 0 <= i < |g| :: g[i].amount <= 0
    requires NoneNegative(Tail(g)) && |Positive(g + provided)| > 0
    ensures SumOf(Overwrite(Positive(g + provided), supply - Total(provided) - Total(Tail(g)))) != Ok(supply)
  {
    hide Positive, Total, Overwrite, NoneNegative;
    OnlyProvidedLeft(provided, g);
    var kept := Positive(provided);
    OverwriteFirst(kept[0], kept[1..], supply - Total(provided));
    assert kept == [kept[0]] + kept[1..];
  }

  lemma OnlyProvidedLeft(provided: seq<Distribution>, g: seq<Distribution>)
    requires NoneNegative(provided) && NoneNegative(Tail(g))
    requires forall i | 0 <= i < |g| :: g[i].amount <= 0
    ensures var kept := Positive(provided);
      && Positive(g + provided) == kept && Total(Tail(g)) == 0
      && (|kept| > 0 ==>
            kept[0].amount > 0 && NoneNegative(kept[1..]) && Total(provided) == kept[0].amount + Total(kept[1..]))
  {
    PositiveConcat(g, provided);
    NothingAboveZero(g);
    NothingAboveZero(Tail(g));
    PositiveKeepsTotal(provided);
    PositiveMembers(provided);
  }

  /** Shares no greater than the whole part of the division leave at least that for the first. */
  lemma RestFits(g: seq<Distribution>, share: int, remaining: int)
    requires |g| > 0 && NoneNegative(g[1..]) && share >= 0 && share * |g| <= remaining
    requires forall i | 0 <= i < |g| :: g[i].amount <= share
    ensures remaining - Total(g[1..]) >= share
  {
    TotalBounds(g[1..], 0, share);
    assert share * |g[1..]| == share * |g| - share;
  }

  lemma ShareFits(supply: int, provided: seq<Distribution>, k: nat)
    requires k >= 1 && Total(provided) <= supply
    ensures 0 <= Share(supply, provided, k) && Share(supply, provided, k) * k <= supply - Total(provided)
  {
  }

  /** Exactly when the first dynamic account has a share above zero, the others being non-negative. */
  lemma FirstShare(supply: int, provided: seq<Distribution>, accounts: seq<string>, nodes: seq<string>, cap: int)
    requires RemainingSupply(supply, provided).Ok?
    requires var g := Generated(accounts, nodes, Share(supply, provided, |accounts| + |nodes|), cap);
      NoneNegative(Tail(g))
    ensures var g := Generated(accounts, nodes, Share(supply, provided, |accounts| + |nodes|), cap);
      var share := Share(supply, provided, |accounts| + |nodes|);
      && (CanDistribute(supply, provided, |accounts|, |nodes|, cap) <==> |g| > 0 && g[0].amount > 0)
      && (|g| > 0 && g[0].amount <= 0 ==> forall i | 0 <= i < |g| :: g[i].amount <= 0)
      && (forall i | 0 <= i < |g| :: g[i].amount <= share)
  {
    var g := Generated(accounts, nodes, Share(supply, provided, |accounts| + |nodes|), cap);
    if |accounts| + |nodes| >= 1 {
      ShareFits(supply, provided, |accounts| + |nodes|);
    }
    if |accounts| > 0 && |nodes| > 0 {
      assert g[1..][|accounts| - 1] == g[|accounts|];
    }
  }

  /** After dropping zero entries and overwriting the first that is left, the amounts add up to the supply
      exactly when the first dynamic account had a share of its own to be overwritten. */
  lemma {:induction false} OverwriteOutcome(supply: int, provided: seq<Distribution>, accounts: seq<string>,
                                            nodes: seq<string>, cap: int)
    requires RemainingSupply(supply, provided).Ok?
    requires var g := Generated(accounts, nodes, Share(supply, provided, |accounts| + |nodes|), cap);
      |Positive(g + provided)| > 0 && NoneNegative(Tail(g))
    ensures var g := Generated(accounts, nodes, Share(supply, provided, |accounts| + |nodes|), cap);
      var after := Overwrite(Positive(g + provided), supply - Total(provided) - Total(Tail(g)));
      && (SumOf(after) == Ok(supply) <==> CanDistribute(supply, provided, |accounts|, |nodes|, cap))
      && (CanDistribute(supply, provided, |accounts|, |nodes|, cap)
          ==> after == Distributed(supply, provided, accounts, nodes, cap))
  {
    hide Generated, Share, Overwrite, Positive, Total, CanDistribute;
    var share := Share(supply, provided, |accounts| + |nodes|);
    var g := Generated(accounts, nodes, share, cap);
    FirstShare(supply, provided, accounts, nodes, cap);
    GeneratedSize(accounts, nodes, share, cap);
    if |g| > 0 && g[0].amount > 0 {
      ShareFits(supply, provided, |g|);
      RestFits(g, share, supply - Total(provided));
      OverwriteShare(supply, provided, g);
    } else {
      OverwriteProvided(supply, provided, g);
    }
  }

  lemma GeneratedSize(accounts: seq<string>, nodes: seq<string>, share: int, cap: int)
    ensures |Generated(accounts, nodes, share, cap)| == |accounts| + |nodes|
  {
  }

  /** What a success consists of. */
  lemma SuccessfulShares(supply: int, provided: seq<Distribution>, accounts: seq<string>, nodes: seq<string>, cap: int)
    requires CanDistribute(supply, provided, |accounts|, |nodes|, cap)
    ensures var share := Share(supply, provided, |accounts| + |nodes|);
      var g := Generated(accounts, nodes, share, cap);
      && |g| == |accounts| + |nodes| && g[0].amount > 0 && NoneNegative(g[1..])
      && supply - Total(provided) - Total(g[1..]) >= share
  {
    var share := Share(supply, provided, |accounts| + |nodes|);
    var g := Generated(accounts, nodes, share, cap);
    assert NoneNegative(g[1..]);
    FirstShare(supply, provided, accounts, nodes, cap);
    ShareFits(supply, provided, |g|);
    RestFits(g, share, supply - Total(provided));
  }

  // ----- the main results -----

  /** Conservation: on success every amount is positive and they add up to exactly the supply. */
  lemma {:induction false} DistributionConserves(supply: int, provided: seq<Distribution>, accounts: seq<string>,
                                                 nodes: seq<string>, cap: int)
    requires CanDistribute(supply, provided, |accounts|, |nodes|, cap)
    ensures var r := Distributed(supply, provided, accounts, nodes, cap);
      Total(r) == supply && forall i | 0 <= i < |r| :: r[i].amount > 0
  {
    var g := Generated(accounts, nodes, Share(supply, provided, |accounts| + |nodes|), cap);
    SuccessfulShares(supply, provided, accounts, nodes, cap);
    OverwriteShare(supply, provided, g);
    PositiveMembers(g[1..]);
    PositiveMembers(provided);
  }

  /** The first dynamic account gets its share, the remainder of the division, and what the cap keeps
      from the other nodes: without a cap in effect, exactly the share and the remainder. */
  lemma {:induction false} FirstGetsTheRest(supply: int, provided: seq<Distribution>, accounts: seq<string>,
                                            nodes: seq<string>, cap: int)
    requires CanDistribute(supply, provided, |accounts|, |nodes|, cap)
    ensures var k := |accounts| + |nodes|;
      var share, remaining := Share(supply, provided, k), supply - Total(provided);
      var first := Distributed(supply, provided, accounts, nodes, cap)[0].amount;
      var otherNodes := if |accounts| >= 1 then |nodes| else |nodes| - 1;
      && first == share + remaining % k + otherNodes * (share - Min(cap, share))
      && first >= share
  {
    var share := Share(supply, provided, |accounts| + |nodes|);
    SuccessfulShares(supply, provided, accounts, nodes, cap);
    TailTotal(accounts, nodes, share, cap);
    hide Generated, Total, CanDistribute;
    FirstAmount(supply - Total(provided), |accounts|, |nodes|, share, Min(cap, share));
  }

  /** After the first entry come the other generated shares, each no more than the share and, for a node,
      no more than the cap; then the positive provided balances, unchanged and in their order. */
  lemma {:induction false} OthersGetTheirShare(supply: int, provided: seq<Distribution>, accounts: seq<string>,
                                               nodes: seq<string>, cap: int)
    requires CanDistribute(supply, provided, |accounts|, |nodes|, cap)
    ensures var share := Share(supply, provided, |accounts| + |nodes|);
      var others := Positive(Generated(accounts, nodes, share, cap)[1..]);
      && Distributed(supply, provided, accounts, nodes, cap)[1..] == others + Positive(provided)
      && forall i | 0 <= i < |others| :: IsShare(others[i], accounts, nodes, share, cap)
  {
    OtherShares(accounts, nodes, Share(supply, provided, |accounts| + |nodes|), cap);
  }

  /** Every generated share after the first that is above zero. */
  lemma OtherShares(accounts: seq<string>, nodes: seq<string>, share: int, cap: int)
    requires |accounts| + |nodes| >= 1
    ensures var others := Positive(Generated(accounts, nodes, share, cap)[1..]);
      forall i | 0 <= i < |others| :: IsShare(others[i], accounts, nodes, share, cap)
  {
    var g := Generated(accounts, nodes, share, cap);
    PositiveMembers(g[1..]);
    var others := Positive(g[1..]);
    forall i | 0 <= i < |others|
      ensures IsShare(others[i], accounts, nodes, share, cap)
    {
      assert others[i] in g[1..];
      var j :| 0 <= j < |g[1..]| && g[1..][j] == others[i];
      assert g[j + 1] == others[i];
    }
  }

  /** An account with the whole share, or a node with no more than the share and the cap. */
  predicate IsShare(d: Distribution, accounts: seq<string>, nodes: seq<string>, share: int, cap: int) {
    || (d.address in accounts && d.amount == share)
    || (d.address in nodes && d.amount <= share && d.amount <= cap)
  }

  lemma FirstAmount(remaining: int, accounts: nat, nodes: nat, share: int, capped: int)
    requires accounts + nodes >= 1 && share == remaining / (accounts + nodes)
    ensures accounts >= 1 ==>
              remaining - ((accounts - 1) * share + nodes * capped)
                  == share + remaining % (accounts + nodes) + nodes * (share - capped)
    ensures accounts == 0 ==>
              remaining - (nodes - 1) * capped == share + remaining % nodes + (nodes - 1) * (share - capped)
  {
    var k := accounts + nodes;
    assert remaining == k * share + remaining % k;
    assert k * share == accounts * share + nodes * share;
    assert (accounts - 1) * share == accounts * share - share;
    assert nodes * (share - capped) == nodes * share - nodes * capped;
    assert (nodes - 1) * (share - capped) == (nodes - 1) * share - (nodes - 1) * capped;
    assert (nodes - 1) * share == nodes * share - share;
  }

  /** Every sum the distribution forms stays between zero and the supply, so double-precision numbers hold
      them exactly for supplies a JavaScript integer can hold. */
  lemma {:induction false} SumsStayInRange(supply: int, provided: seq<Distribution>, accounts: seq<string>,
                                           nodes: seq<string>, cap: int, n: nat)
    requires CanDistribute(supply, provided, |accounts|, |nodes|, cap)
    ensures n <= |provided| ==> 0 <= Total(provided[..n]) <= supply
    ensures var tail := Generated(accounts, nodes, Share(supply, provided, |accounts| + |nodes|), cap)[1..];
      n <= |tail| ==> 0 <= Total(tail[..n]) <= supply
    ensures var r := Distributed(supply, provided, accounts, nodes, cap);
      n <= |r| ==> 0 <= Total(r[..n]) <= supply
  {
    var tail := Generated(accounts, nodes, Share(supply, provided, |accounts| + |nodes|), cap)[1..];
    var r := Distributed(supply, provided, accounts, nodes, cap);
    SuccessfulShares(supply, provided, accounts, nodes, cap);
    DistributionConserves(supply, provided, accounts, nodes, cap);
    TotalIsNonNegative(provided);
    TotalIsNonNegative(tail);
    if n <= |provided| {
      PartialSums(provided, n);
    }
    if n <= |tail| {
      PartialSums(tail, n);
    }
    if n <= |r| {
      PartialSums(r, n);
    }
  }
}
