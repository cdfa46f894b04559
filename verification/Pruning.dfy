/** Pruning a configuration tree: what is left, and why nothing else could be. */
module Pruning {
  import opened JsonValues

  predicate Blank(v: Value) {
    v.Undefined? || v.Null? || v.NaN?
  }

  predicate IsContainer(v: Value) {
    v.Arr? || v.Obj?
  }

  predicate IsEmpty(v: Value)
    requires IsContainer(v)
  {
    v == Arr([]) || v == Obj(map[])
  }

  /** The tree without blank entries and without containers that end up empty; the root itself stays. */
  function Pruned(v: Value): (r: Value)
    ensures IsContainer(v) ==> IsContainer(r)
    decreases v, 0
  {
    match v
    case Arr(items) => Arr(PrunedItems(items))
    case Obj(fields) => Obj(map k | k in fields && !Dropped(fields[k]) :: Pruned(fields[k]))
    case _ => v
  }

  predicate Dropped(v: Value)
    decreases v, 1
  {
    Blank(v) || (IsContainer(v) && IsEmpty(Pruned(v)))
  }

  function PrunedItems(items: seq<Value>): seq<Value>
    decreases items, 2
  {
    if |items| == 0 then []
    else (if Dropped(items[0]) then [] else [Pruned(items[0])]) + PrunedItems(items[1..])
  }

  // ----- what a pruned tree must be -----

  /** How many leaves carry something. */
  ghost function LeafCount(v: Value): nat {
    match v
    case Arr(items) => LeafSum(items)
    case Obj(fields) => SumMap(map k | k in fields :: LeafCount(fields[k]))
    case _ => if Blank(v) then 0 else 1
  }

  ghost function LeafSum(items: seq<Value>): nat {
    if |items| == 0 then 0 else LeafCount(items[0]) + LeafSum(items[1..])
  }

  /** Neither blank nor empty, at any depth. */
  ghost predicate Solid(v: Value)
    decreases v, 1
  {
    && !Blank(v)
    && (v.Arr? ==> v.items != [])
    && (v.Obj? ==> v.fields != map[])
    && Clean(v)
  }

  /** Everything below the root is solid. */
  ghost predicate Clean(v: Value)
    decreases v, 0
  {
    match v
    case Arr(items) => forall i | 0 <= i < |items| :: Solid(items[i])
    case Obj(fields) => forall k | k in fields :: Solid(fields[k])
    case _ => true
  }

  /** `p` comes from `v` by leaving out entries, at any depth: leaves keep their values, array elements
      their order, fields their names. */
  ghost predicate Embeds(p: Value, v: Value)
    decreases v
  {
    match v
    case Arr(items) => p.Arr? && EmbedsItems(p.items, items)
    case Obj(fields) => p.Obj? && p.fields.Keys <= fields.Keys
        && forall k | k in p.fields :: Embeds(p.fields[k], fields[k])
    case _ => p == v
  }

  ghost predicate EmbedsItems(ps: seq<Value>, items: seq<Value>)
    decreases items
  {
    if |items| == 0 then ps == []
    else
      || EmbedsItems(ps, items[1..])
      || (|ps| > 0 && Embeds(ps[0], items[0]) && EmbedsItems(ps[1..], items[1..]))
  }

  ghost function Counts(fields: map<string, Value>): map<string, nat> {
    map k | k in fields :: LeafCount(fields[k])
  }

  lemma LeafCountOfFields(fields: map<string, Value>)
    ensures LeafCount(Obj(fields)) == SumMap(Counts(fields))
  {
    assert (map k | k in fields :: LeafCount(fields[k])) == Counts(fields);
  }

  lemma PrunedItemsCons(items: seq<Value>)
    requires |items| > 0
    ensures PrunedItems(items)
         == if Dropped(items[0]) then PrunedItems(items[1..]) else [Pruned(items[0])] + PrunedItems(items[1..])
  {
  }

  /** In objects, path by path: a leaf stays with its value and at its place unless it is undefined, null or NaN; so
      false, zero and the empty text stay. No leaf appears. */
  lemma {:induction false} LeavesInObjects(v: Value, path: seq<Step>, leaf: Value)
    requires IsLeaf(leaf) && |path| > 0 && forall i | 0 <= i < |path| :: path[i].Name?
    ensures HasAt(Pruned(v), path, leaf) <==> HasAt(v, path, leaf) && leaf !in {Undefined, Null, NaN}
    decreases |path|
  {
    var k := path[0].name;
    if v.Obj? && k in v.fields {
      if |path| == 1 {
        assert HasAt(v, path, leaf) <==> v.fields[k] == leaf;
      } else {
        LeavesInObjects(v.fields[k], path[1..], leaf);
      }
    }
  }

  /** In arrays, element by element: one that is not dropped stays, pruned, behind what is left of those before. */
  lemma {:induction false} ElementsKeepOrder(items: seq<Value>, i: nat)
    requires i < |items|
    ensures |PrunedItems(items[..i])| <= |PrunedItems(items)|
    ensures !Dropped(items[i]) ==>
      var at := |PrunedItems(items[..i])|;
      at < |PrunedItems(items)| && PrunedItems(items)[at] == Pruned(items[i])
    ensures IsLeaf(items[i]) ==> (Dropped(items[i]) <==> items[i] in {Undefined, Null, NaN})
  {
    hide Pruned, PrunedItems;
    PrunedItemsCons(items);
    if i == 0 {
      assert items[..0] == [];
      NoItems();
    } else {
      ElementsKeepOrder(items[1..], i - 1);
      PrunedItemsCons(items[..i]);
      assert items[..i][1..] == items[1..][..i - 1];
    }
  }

  lemma NoItems()
    ensures PrunedItems([]) == []
  {
  }

  /** An entry is dropped exactly when no leaf below it carries anything. */
  lemma {:induction false} DroppedIffNoLeaf(v: Value)
    ensures Dropped(v) <==> LeafCount(v) == 0
  {
    match v
    case Arr(items) => ItemsEmptyIffNoLeaf(items);
    case Obj(fields) =>
      forall k | k in fields
        ensures Dropped(fields[k]) <==> LeafCount(fields[k]) == 0
      {
        DroppedIffNoLeaf(fields[k]);
      }
      SumMapZero(Counts(fields));
      LeafCountOfFields(fields);
      var left := Pruned(v).fields;
      assert forall k :: k in left <==> k in fields && !Dropped(fields[k]);
      assert forall k | k in fields :: Counts(fields)[k] == LeafCount(fields[k]);
      assert left == map[] <==> forall k :: k !in left;
    case _ =>
  }

  lemma {:induction false} ItemsEmptyIffNoLeaf(items: seq<Value>)
    ensures PrunedItems(items) == [] <==> LeafSum(items) == 0
  {
    if |items| != 0 {
      DroppedIffNoLeaf(items[0]);
      ItemsEmptyIffNoLeaf(items[1..]);
    }
  }

  // ----- the pruned tree is one -----

  lemma {:induction false} PrunedKeepsLeaves(v: Value)
    ensures LeafCount(Pruned(v)) == LeafCount(v)
  {
    match v
    case Arr(items) => PrunedItemsKeepLeaves(items);
    case Obj(fields) =>
      var left := Pruned(v).fields;
      forall k | k in fields
        ensures k in left ==> LeafCount(left[k]) == LeafCount(fields[k])
        ensures k !in left ==> LeafCount(fields[k]) == 0
      {
        PrunedKeepsLeaves(fields[k]);
        DroppedIffNoLeaf(fields[k]);
      }
      LeafCountOfFields(left);
      LeafCountOfFields(fields);
      SumMapMonotone(Counts(left), Counts(fields));
    case _ =>
  }

  lemma {:induction false} PrunedItemsKeepLeaves(items: seq<Value>)
    ensures LeafSum(PrunedItems(items)) == LeafSum(items)
  {
    if |items| != 0 {
      PrunedItemsKeepLeaves(items[1..]);
      DroppedIffNoLeaf(items[0]);
      PrunedKeepsLeaves(items[0]);
      PrunedItemsCons(items);
      assert ([Pruned(items[0])] + PrunedItems(items[1..]))[1..] == PrunedItems(items[1..]);
    }
  }

  lemma {:induction false} PrunedIsClean(v: Value)
    ensures Clean(Pruned(v))
    ensures !Dropped(v) ==> Solid(Pruned(v))
  {
    match v
    case Arr(items) => PrunedItemsAreSolid(items);
    case Obj(fields) =>
      forall k | k in fields
        ensures !Dropped(fields[k]) ==> Solid(Pruned(fields[k]))
      {
        PrunedIsClean(fields[k]);
      }
    case _ =>
  }

  lemma {:induction false} PrunedItemsAreSolid(items: seq<Value>)
    ensures forall i | 0 <= i < |PrunedItems(items)| :: Solid(PrunedItems(items)[i])
  {
    if |items| != 0 {
      PrunedIsClean(items[0]);
      PrunedItemsAreSolid(items[1..]);
    }
  }

  lemma {:induction false} PrunedEmbeds(v: Value)
    ensures Embeds(Pruned(v), v)
  {
    match v
    case Arr(items) => PrunedItemsEmbed(items);
    case Obj(fields) =>
      forall k | k in fields
        ensures Embeds(Pruned(fields[k]), fields[k])
      {
        PrunedEmbeds(fields[k]);
      }
    case _ =>
  }

  lemma {:induction false} PrunedItemsEmbed(items: seq<Value>)
    ensures EmbedsItems(PrunedItems(items), items)
  {
    if |items| != 0 {
      PrunedEmbeds(items[0]);
      PrunedItemsEmbed(items[1..]);
      PrunedItemsCons(items);
      assert ([Pruned(items[0])] + PrunedItems(items[1..]))[1..] == PrunedItems(items[1..]);
    }
  }

  // ----- and the only one -----

  lemma {:induction false} SolidHasLeaf(v: Value)
    ensures Solid(v) ==> LeafCount(v) > 0
  {
    assert Solid(v) ==> Clean(v);
    match v
    case Arr(items) =>
      if |items| != 0 {
        SolidHasLeaf(items[0]);
        assert Solid(v) ==> Solid(items[0]);
      }
    case Obj(fields) =>
      if fields != map[] {
        var k :| k in fields;
        SolidHasLeaf(fields[k]);
        SumMapZero(Counts(fields));
        LeafCountOfFields(fields);
        assert Counts(fields)[k] == LeafCount(fields[k]);
      }
    case _ =>
  }

  lemma {:induction false} EmbeddedHasFewerLeaves(p: Value, v: Value)
    ensures Embeds(p, v) ==> LeafCount(p) <= LeafCount(v)
    decreases v
  {
    match v
    case Arr(items) =>
      if p.Arr? {
        EmbeddedItemsHaveFewerLeaves(p.items, items);
      }
    case Obj(fields) =>
      if Embeds(p, v) {
        forall k | k in p.fields
          ensures LeafCount(p.fields[k]) <= LeafCount(fields[k])
        {
          EmbeddedHasFewerLeaves(p.fields[k], fields[k]);
        }
        LeafCountOfFields(p.fields);
        LeafCountOfFields(fields);
        SumMapMonotone(Counts(p.fields), Counts(fields));
      }
    case _ =>
  }

  lemma {:induction false} EmbeddedItemsHaveFewerLeaves(ps: seq<Value>, items: seq<Value>)
    ensures EmbedsItems(ps, items) ==> LeafSum(ps) <= LeafSum(items)
    decreases items
  {
    if |items| != 0 {
      EmbeddedItemsHaveFewerLeaves(ps, items[1..]);
      if |ps| != 0 {
        EmbeddedHasFewerLeaves(ps[0], items[0]);
        EmbeddedItemsHaveFewerLeaves(ps[1..], items[1..]);
      }
    }
  }

  /** A clean tree that leaves out entries but no carrying leaf can only be the pruned one. */
  lemma {:induction false} PrunedIsUnique(p: Value, v: Value)
    requires Embeds(p, v) && Clean(p) && LeafCount(p) == LeafCount(v)
    ensures p == Pruned(v)
    decreases v
  {
    match v
    case Arr(items) => PrunedItemsAreUnique(p.items, items);
    case Obj(fields) =>
      FieldsAgree(p.fields, fields);
      forall k | k in p.fields
        ensures p.fields[k] == Pruned(fields[k])
      {
        PrunedIsUnique(p.fields[k], fields[k]);
      }
      assert p.fields == Pruned(v).fields;
    case _ =>
  }

  /** Clean fields that account for every carrying leaf: each is there unless it is dropped, with all its leaves. */
  lemma FieldsAgree(ps: map<string, Value>, fields: map<string, Value>)
    requires Embeds(Obj(ps), Obj(fields)) && Clean(Obj(ps)) && LeafCount(Obj(ps)) == LeafCount(Obj(fields))
    ensures forall k | k in ps :: LeafCount(ps[k]) == LeafCount(fields[k])
    ensures forall k | k in fields :: k in ps <==> !Dropped(fields[k])
  {
    forall k | k in ps
      ensures LeafCount(ps[k]) <= LeafCount(fields[k])
    {
      EmbeddedHasFewerLeaves(ps[k], fields[k]);
    }
    LeafCountOfFields(ps);
    LeafCountOfFields(fields);
    SumMapMonotone(Counts(ps), Counts(fields));
    forall k | k in ps
      ensures LeafCount(ps[k]) == LeafCount(fields[k])
    {
      assert Counts(ps)[k] == Counts(fields)[k];
    }
    forall k | k in fields
      ensures k in ps <==> !Dropped(fields[k])
    {
      DroppedIffNoLeaf(fields[k]);
      if k in ps {
        SolidHasLeaf(ps[k]);
      } else {
        assert Counts(fields)[k] == 0;
      }
    }
  }

  lemma {:induction false} PrunedItemsAreUnique(ps: seq<Value>, items: seq<Value>)
    requires EmbedsItems(ps, items) && (forall i | 0 <= i < |ps| :: Solid(ps[i])) && LeafSum(ps) == LeafSum(items)
    ensures ps == PrunedItems(items)
    decreases items
  {
    if |items| != 0 {
      DroppedIffNoLeaf(items[0]);
      PrunedItemsCons(items);
      EmbeddedItemsHaveFewerLeaves(ps, items[1..]);
      if |ps| != 0 {
        EmbeddedHasFewerLeaves(ps[0], items[0]);
        EmbeddedItemsHaveFewerLeaves(ps[1..], items[1..]);
        SolidHasLeaf(ps[0]);
      }
      if LeafCount(items[0]) == 0 {
        PrunedItemsAreUnique(ps, items[1..]);
      } else {
        PrunedIsUnique(ps[0], items[0]);
        PrunedItemsAreUnique(ps[1..], items[1..]);
      }
    }
  }

  // ----- the main results -----

  /** The pruned tree is the one tree that leaves entries out, keeps every carrying leaf with its value and
      its order, and has nothing blank or empty below the root. */
  lemma {:induction false} PrunedExactly(p: Value, v: Value)
    ensures p == Pruned(v) <==> Embeds(p, v) && Clean(p) && LeafCount(p) == LeafCount(v)
  {
    PrunedEmbeds(v);
    PrunedIsClean(v);
    PrunedKeepsLeaves(v);
    if Embeds(p, v) && Clean(p) && LeafCount(p) == LeafCount(v) {
      PrunedIsUnique(p, v);
    }
  }

  lemma {:induction false} EmbedsItself(v: Value)
    ensures Embeds(v, v)
  {
    match v
    case Arr(items) => ItemsEmbedThemselves(items);
    case Obj(fields) =>
      forall k | k in fields
        ensures Embeds(fields[k], fields[k])
      {
        EmbedsItself(fields[k]);
      }
    case _ =>
  }

  lemma {:induction false} ItemsEmbedThemselves(items: seq<Value>)
    ensures EmbedsItems(items, items)
  {
    if |items| != 0 {
      EmbedsItself(items[0]);
      ItemsEmbedThemselves(items[1..]);
    }
  }

  /** A tree is left alone exactly when it is clean; pruning is idempotent. */
  lemma {:induction false} CleanIsFixed(v: Value)
    ensures Pruned(v) == v <==> Clean(v)
    ensures Pruned(Pruned(v)) == Pruned(v)
  {
    EmbedsItself(v);
    PrunedExactly(v, v);
    PrunedIsClean(v);
    EmbedsItself(Pruned(v));
    PrunedExactly(Pruned(v), Pruned(v));
  }
}
