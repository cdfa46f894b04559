/** Who gets how much of each nemesis mosaic, said of the configured balances and limits alone. */
module NemesisLaws {
  import opened Basics
  import opened Nemesis

  lemma CapIs(mosaicCount: nat, mosaicIndex: nat, maxHarvesterBalance: int)
    requires mosaicIndex < mosaicCount
    ensures MaxHarvesterBalance(mosaicCount, mosaicIndex, maxHarvesterBalance)
         == if mosaicIndex == (if mosaicCount == 1 then 0 else 1) then maxHarvesterBalance else 9007199254740991
  {
  }

  lemma {:induction false} AllPositive(ds: seq<Distribution>)
    requires forall i | 0 <= i < |ds| :: ds[i].amount > 0
    ensures Positive(ds) == ds
  {
    if |ds| != 0 {
      AllPositive(ds[1..]);
    }
  }

  lemma GeneratedAt(accounts: seq<string>, nodes: seq<string>, share: int, cap: int)
    ensures var g := Generated(accounts, nodes, share, cap);
      && |g| == |accounts| + |nodes|
      && (forall i | 0 <= i < |accounts| :: g[i] == Distribution(accounts[i], share))
      && (forall i | 0 <= i < |nodes| ::
            g[|accounts| + i] == Distribution(nodes[i], if share <= cap then share else cap))
      && (share >= 1 && cap >= 1 ==> forall i | 0 <= i < |g| :: g[i].amount > 0)
  {
  }

  lemma TwoParts(r: seq<Distribution>, first: Distribution, g: seq<Distribution>, rest: seq<Distribution>)
    requires |g| >= 1 && r == [first] + (g[1..] + rest)
    ensures |r| == |g| + |rest| && r[0] == first && r[|g|..] == rest
    ensures forall i | 1 <= i < |g| :: r[i] == g[i]
  {
  }

  /** With every node share above zero, a distribution is the generated entries in their order, then the positive
      provided ones. */
  lemma DistributedInOrder(supply: int, provided: seq<Distribution>, accounts: seq<string>, nodes: seq<string>,
                           cap: int)
    requires CanDistribute(supply, provided, |accounts|, |nodes|, cap) && cap >= 1
    ensures var k := |accounts| + |nodes|;
      var share, r := Share(supply, provided, k), Distributed(supply, provided, accounts, nodes, cap);
      && |r| == k + |Positive(provided)| && r[k..] == Positive(provided)
      && r[0].address == (accounts + nodes)[0]
      && (forall i | 1 <= i < |accounts| :: r[i] == Distribution(accounts[i], share))
      && (forall i | 0 <= i < |nodes| && |accounts| + i > 0 ::
            r[|accounts| + i] == Distribution(nodes[i], if share <= cap then share else cap))
  {
    hide Generated, Positive, Total, Share;
    var share := Share(supply, provided, |accounts| + |nodes|);
    var g := Generated(accounts, nodes, share, cap);
    GeneratedAt(accounts, nodes, share, cap);
    AllPositive(g[1..]);
    var r := Distributed(supply, provided, accounts, nodes, cap);
    TwoParts(r, r[0], g, Positive(provided));
  }

  /** Without anything for the nodes, they are left out. */
  lemma NodesLeftOut(supply: int, provided: seq<Distribution>, accounts: seq<string>, nodes: seq<string>, cap: int)
    requires CanDistribute(supply, provided, |accounts|, |nodes|, cap) && cap <= 0
    ensures var share, r := Share(supply, provided, |accounts| + |nodes|),
        Distributed(supply, provided, accounts, nodes, cap);
      && |accounts| >= 1 && |r| == |accounts| + |Positive(provided)| && r[|accounts|..] == Positive(provided)
      && r[0].address == accounts[0]
      && forall i | 1 <= i < |accounts| :: r[i] == Distribution(accounts[i], share)
  {
    hide Positive, Total, Share;
    var share := Share(supply, provided, |accounts| + |nodes|);
    var a, n := Equal(accounts, share), Equal(nodes, Min(cap, share));
    assert (a + n)[1..] == a[1..] + n;
    PositiveConcat(a[1..], n);
    AllPositive(a[1..]);
    NothingAboveZero(n);
    var r := Distributed(supply, provided, accounts, nodes, cap);
    assert a[1..] + [] == a[1..];
    TwoParts(r, r[0], a, Positive(provided));
  }

  /** What each dynamic account of a mosaic gets, but for the first, which gets the rest: the accounts the share; the
      nodes, in the mosaic for harvesting, the share up to the greatest balance that may harvest (and nothing
      when that is zero), and in every other mosaic the share. */
  lemma {:induction false} HarvestersAreCapped(supply: int, initial: seq<Distribution>, accounts: seq<string>,
                                               presets: seq<NodePreset>, nodes: seq<string>, mosaicCount: nat,
                                               mosaicIndex: nat, maxHarvesterBalance: int, result: seq<Distribution>)
    requires mosaicIndex < mosaicCount && supply <= MAX_SAFE_INTEGER
    requires IsDistributed(supply, DynamicOf(initial, accounts, presets, nodes, mosaicCount, mosaicIndex,
                                             maxHarvesterBalance), result)
    ensures var provided := initial + NodeBalances(presets, nodes, mosaicIndex, |nodes|);
      var dynamic := DynamicNodes(presets, nodes, mosaicIndex, |nodes|);
      var a, k := |accounts|, |accounts| + |dynamic|;
      var harvest := mosaicIndex == (if mosaicCount == 1 then 0 else 1);
      && k >= 1
      && var share := (supply - Total(provided)) / k;
      && share >= 1
      && (!harvest || maxHarvesterBalance >= 1 ==>
            && |result| == k + |Positive(provided)| && result[k..] == Positive(provided)
            && result[0].address == (accounts + dynamic)[0]
            && (forall i | 1 <= i < a :: result[i] == Distribution(accounts[i], share))
            && (forall i | 0 <= i < |dynamic| && a + i > 0 :: result[a + i] == Distribution(dynamic[i],
                   if harvest && maxHarvesterBalance < share then maxHarvesterBalance else share)))
      && (harvest && maxHarvesterBalance <= 0 ==>
            && |result| == a + |Positive(provided)| && result[a..] == Positive(provided)
            && a >= 1 && result[0].address == accounts[0]
            && (forall i | 1 <= i < a :: result[i] == Distribution(accounts[i], share)))
  {
    hide CanDistribute, Distributed, MaxHarvesterBalance, DynamicNodes, NodeBalances, Positive, Total, NoneNegative,
        Share;
    var d := DynamicOf(initial, accounts, presets, nodes, mosaicCount, mosaicIndex, maxHarvesterBalance);
    CapIs(mosaicCount, mosaicIndex, maxHarvesterBalance);
    SuccessHasShare(supply, d);
    TotalIsNonNegative(d.provided);
    ShareIsBelow(supply, Total(d.provided), |accounts| + |d.nodes|);
    if d.cap >= 1 {
      DistributedInOrder(supply, d.provided, accounts, d.nodes, d.cap);
    } else {
      NodesLeftOut(supply, d.provided, accounts, d.nodes, d.cap);
    }
  }

  lemma SuccessHasShare(supply: int, d: Dynamic)
    requires CanDistributeOver(supply, d)
    ensures |d.accounts| + |d.nodes| >= 1 && NoneNegative(d.provided) && Total(d.provided) <= supply
    ensures Share(supply, d.provided, |d.accounts| + |d.nodes|)
         == (supply - Total(d.provided)) / (|d.accounts| + |d.nodes|) >= 1
  {
  }

  lemma ShareIsBelow(supply: int, provided: int, k: nat)
    requires 0 <= provided <= supply && k >= 1
    ensures (supply - provided) / k <= supply
  {
  }

  // ----- which nodes are dynamic -----

  /** Node by node: one with a balance for the mosaic gets that balance; one without a balance gets nothing when it is
      excluded; any other one, also one without a preset, is dynamic. Both lists keep the order of the nodes. */
  lemma {:induction false} NextNode(presets: seq<NodePreset>, nodes: seq<string>, mosaicIndex: nat, i: nat)
    requires i < |nodes|
    ensures var provided, dynamic := NodeBalances(presets, nodes, mosaicIndex, i),
        DynamicNodes(presets, nodes, mosaicIndex, i);
      var provided', dynamic' := NodeBalances(presets, nodes, mosaicIndex, i + 1),
          DynamicNodes(presets, nodes, mosaicIndex, i + 1);
      && (i < |presets| && mosaicIndex < |presets[i].balances| ==>
            provided' == provided + [Distribution(nodes[i], presets[i].balances[mosaicIndex])] && dynamic' == dynamic)
      && (i < |presets| && mosaicIndex >= |presets[i].balances| && presets[i].excludeFromNemesis ==>
            provided' == provided + [Distribution(nodes[i], 0)] && dynamic' == dynamic)
      && (i >= |presets| || (mosaicIndex >= |presets[i].balances| && !presets[i].excludeFromNemesis) ==>
            provided' == provided && dynamic' == dynamic + [nodes[i]])
  {
  }

  /** Of different nodes, exactly those take part in the division that have no balance for the mosaic and are
      not excluded; the balances of the others are provided as they are configured, zero for the excluded. */
  lemma {:induction false} DynamicExactly(presets: seq<NodePreset>, nodes: seq<string>, mosaicIndex: nat, n: nat,
                                          i: nat)
    requires NoDuplicates(nodes) && i < n <= |nodes|
    ensures nodes[i] in DynamicNodes(presets, nodes, mosaicIndex, n)
        <==> i >= |presets| || (mosaicIndex >= |presets[i].balances| && !presets[i].excludeFromNemesis)
    ensures forall amount ::
      Distribution(nodes[i], amount) in NodeBalances(presets, nodes, mosaicIndex, n)
      <==> i < |presets| && (if mosaicIndex < |presets[i].balances| then amount == presets[i].balances[mosaicIndex]
                             else presets[i].excludeFromNemesis && amount == 0)
  {
    hide NodeBalances, DynamicNodes;
    NextNode(presets, nodes, mosaicIndex, n - 1);
    if i < n - 1 {
      DynamicExactly(presets, nodes, mosaicIndex, n - 1, i);
    } else {
      OnlyFromNodes(presets, nodes, mosaicIndex, n - 1);
    }
  }

  lemma {:induction false} OnlyFromNodes(presets: seq<NodePreset>, nodes: seq<string>, mosaicIndex: nat, n: nat)
    requires n <= |nodes|
    ensures forall address | address in DynamicNodes(presets, nodes, mosaicIndex, n) :: address in nodes[..n]
    ensures forall d | d in NodeBalances(presets, nodes, mosaicIndex, n) :: d.address in nodes[..n]
  {
    if n != 0 {
      OnlyFromNodes(presets, nodes, mosaicIndex, n - 1);
      assert nodes[..n] == nodes[..n - 1] + [nodes[n - 1]];
    }
  }
}
