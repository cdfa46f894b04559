/** Pruning as the program does it: in place, on a deep clone of a tree of objects and arrays. */
module PruneInPlace {
  import opened JsonValues
  import opened Pruning

  /** What an array element or an object field holds: a plain value, or a reference to a container. */
  datatype Slot = Atom(v: Value) | Ref(c: Container)

  class Container {
    const isArray: bool
    var items: seq<Slot>
    var fields: map<string, Slot>
    ghost var repr: set<Container>

    constructor (isArray: bool)
      ensures this.isArray == isArray && items == [] && fields == map[] && repr == {this} && Valid()
    {
      this.isArray := isArray;
      items := [];
      fields := map[];
      repr := {this};
    }

    /** A tree: every child is a smaller tree of its own, and no two children share a container. */
    ghost predicate Valid()
      reads this, repr
      decreases repr, 0
    {
      && this in repr
      && (isArray ==> fields == map[]) && (!isArray ==> items == [])
      && (forall i | 0 <= i < |items| ::
            (items[i].Ref? ==> items[i].c in repr) && Inside(items[i], repr - {this}) && ValidSlot(items[i]))
      && (forall k | k in fields ::
            (fields[k].Ref? ==> fields[k].c in repr) && Inside(fields[k], repr - {this}) && ValidSlot(fields[k]))
      && (forall i, j | 0 <= i < j < |items| :: Apart(items[i], items[j]))
      && (forall k, l | k in fields && l in fields && k != l :: Apart(fields[k], fields[l]))
    }

    /** The value this tree stands for. */
    ghost function Model(): (r: Value)
      requires Valid()
      reads this, repr
      ensures IsContainer(r)
      decreases repr, 2
    {
      if isArray then Arr(ItemModels(|items|))
      else Obj(map k | k in fields :: SlotModel(fields[k]))
    }

    ghost function ItemModels(n: nat): (r: seq<Value>)
      requires Valid() && n <= |items|
      reads this, repr
      ensures |r| == n && forall i | 0 <= i < n :: r[i] == SlotModel(items[i])
      decreases repr, 1, n
    {
      if n == 0 then [] else ItemModels(n - 1) + [SlotModel(items[n - 1])]
    }
  }

  /** The containers of the tree in a slot. */
  ghost function Footprint(s: Slot): set<Container>
    reads if s.Ref? then {s.c} else {}
  {
    if s.Ref? then s.c.repr else {}
  }

  ghost predicate Inside(s: Slot, region: set<Container>)
    reads if s.Ref? then {s.c} else {}
  {
    s.Ref? ==> s.c in region && s.c.repr <= region
  }

  ghost predicate Apart(s: Slot, t: Slot)
    reads if s.Ref? then {s.c} else {}, if t.Ref? then {t.c} else {}
  {
    Footprint(s) !! Footprint(t)
  }

  ghost predicate ValidSlot(s: Slot)
    reads if s.Ref? then {s.c} + s.c.repr else {}
    decreases Footprint(s), 1
  {
    match s
    case Atom(v) => !IsContainer(v)
    case Ref(c) => c.Valid()
  }

  ghost function SlotModel(s: Slot): Value
    requires ValidSlot(s)
    reads if s.Ref? then {s.c} + s.c.repr else {}
    decreases Footprint(s), 3
  {
    match s
    case Atom(v) => v
    case Ref(c) => c.Model()
  }

  predicate IsEmptyContainer(c: Container)
    reads c
  {
    if c.isArray then c.items == [] else c.fields == map[]
  }

  method PruneSlot(s: Slot) returns (gone: bool)
    requires ValidSlot(s)
    modifies if s.Ref? then s.c.repr else {}
    ensures ValidSlot(s) && Footprint(s) == old(Footprint(s))
    ensures gone <==> Dropped(old(SlotModel(s)))
    ensures SlotModel(s) == Pruned(old(SlotModel(s)))
    decreases Footprint(s), 3
  {
    match s
    case Atom(v) =>
      gone := Blank(v);
    case Ref(c) =>
      Prune(c);
      gone := IsEmptyContainer(c);
      EmptyModel(c);
  }

  lemma EmptyModel(c: Container)
    requires c.Valid()
    ensures IsEmptyContainer(c) <==> IsEmpty(c.Model())
  {
    if c.isArray {
      ItemCount(c);
    } else {
      FieldNames(c);
      assert c.Model().fields.Keys == {} <==> c.Model().fields == map[];
    }
  }

  method Prune(c: Container)
    requires c.Valid()
    modifies c.repr
    ensures c.Valid() && c.repr == old(c.repr)
    ensures c.Model() == Pruned(old(c.Model()))
    decreases c.repr, 2
  {
    if c.isArray {
      PruneItems(c);
    } else {
      PruneFields(c);
    }
  }

  lemma FieldNames(c: Container)
    requires c.Valid() && !c.isArray
    ensures c in c.repr && c.Model().Obj? && c.Model().fields.Keys == c.fields.Keys
  {
  }

  lemma FieldsStandFor(c: Container, values: map<string, Value>)
    requires c.Valid() && !c.isArray && c.fields.Keys == values.Keys
    requires forall k | k in values :: SlotModel(c.fields[k]) == values[k]
    ensures c.Model() == Obj(values)
  {
    assert c.Model().fields == values;
  }

  /** The loop over the fields of an object: a field is deleted as soon as it turns out empty. */
  method PruneFields(c: Container)
    requires c.Valid() && !c.isArray
    modifies c.repr
    ensures c.Valid() && c.repr == old(c.repr)
    ensures c.Model() == Pruned(old(c.Model()))
    decreases c.repr, 1
  {
    hide Pruned, Dropped, Container.Valid, Container.Model, ValidSlot, SlotModel;
    FieldNames(c);
    ghost var models := c.Model().fields;
    var keys := c.fields.Keys;
    while keys != {}
      invariant c.Valid() && c.repr == old(c.repr) && c.Model().Obj?
      invariant keys <= c.Model().fields.Keys
      invariant forall k :: k in c.Model().fields <==> k in models && (k in keys || !Dropped(models[k]))
      invariant forall k | k in c.Model().fields ::
        c.Model().fields[k] == if k in keys then models[k] else Pruned(models[k])
      decreases keys
    {
      var k :| k in keys;
      PruneField(c, k);
      keys := keys - {k};
    }
    PrunedFields(models, c.Model().fields);
  }

  lemma PrunedFields(models: map<string, Value>, left: map<string, Value>)
    requires forall k :: k in left <==> k in models && !Dropped(models[k])
    requires forall k | k in left :: left[k] == Pruned(models[k])
    ensures Obj(left) == Pruned(Obj(models))
  {
    assert left == Pruned(Obj(models)).fields;
  }

  method PruneField(c: Container, k: string)
    requires c.Valid() && !c.isArray && k in c.Model().fields
    modifies c.repr
    ensures c.Valid() && c.repr == old(c.repr)
    ensures var before := old(c.Model()).fields;
      c.Model() == Obj(if Dropped(before[k]) then before - {k} else before[k := Pruned(before[k])])
    decreases c.repr, 0, 1
  {
    hide Pruned, Dropped;
    ghost var before := c.Model().fields;
    DeleteUpdated(before, k, Pruned(before[k]));
    var gone := PruneFieldTree(c, k);
    if gone {
      DeleteField(c, k);
    }
  }

  lemma DeleteUpdated(m: map<string, Value>, k: string, v: Value)
    ensures m[k := v] - {k} == m - {k}
  {
  }

  /** Pruning the tree in one field leaves the object a tree and the other fields as they are. */
  method PruneFieldTree(c: Container, k: string) returns (gone: bool)
    requires c.Valid() && !c.isArray && k in c.Model().fields
    modifies c.repr
    ensures c.Valid() && c.repr == old(c.repr)
    ensures var before := old(c.Model()).fields;
      (gone <==> Dropped(before[k])) && c.Model() == Obj(before[k := Pruned(before[k])])
    decreases c.repr, 0, 0
  {
    hide Pruned, Dropped;
    ghost var before := c.Model().fields;
    gone := PruneSlot(c.fields[k]);
    forall j | j in c.fields && j != k
      ensures ValidSlot(c.fields[j]) && Footprint(c.fields[j]) == old(Footprint(c.fields[j]))
      ensures SlotModel(c.fields[j]) == old(SlotModel(c.fields[j]))
    {
      assert old(Apart(c.fields[j], c.fields[k])) && old(ValidSlot(c.fields[j]));
      if c.fields[j].Ref? {
        var d := c.fields[j].c;
        assert old(d.Valid()) && d in old(d.repr);
        assert forall o | o in old(d.repr) :: o !in old(Footprint(c.fields[k]));
      }
    }
    assert c.Valid();
    FieldsStandFor(c, before[k := Pruned(before[k])]);
  }

  method DeleteField(c: Container, k: string)
    requires c.Valid() && !c.isArray && k in c.Model().fields
    modifies c
    ensures c.Valid() && c.repr == old(c.repr)
    ensures c.Model() == Obj(old(c.Model()).fields - {k})
  {
    ghost var before := c.Model().fields;
    c.fields := c.fields - {k};
    forall j | j in c.fields
      ensures ValidSlot(c.fields[j]) && SlotModel(c.fields[j]) == before[j]
    {
      assert old(ValidSlot(c.fields[j])) && old(Inside(c.fields[j], c.repr - {c}));
    }
    assert c.Valid();
    FieldsStandFor(c, before - {k});
  }

  /** What `delete` leaves in an array. */
  const HOLE := Atom(Undefined)

  lemma ItemCount(c: Container)
    requires c.Valid() && c.isArray
    ensures c in c.repr && c.Model().Arr? && |c.Model().items| == |c.items|
  {
  }

  /** The loop over the elements of an array, which leaves holes, and the final pull, which closes them. */
  method PruneItems(c: Container)
    requires c.Valid() && c.isArray
    modifies c.repr
    ensures c.Valid() && c.repr == old(c.repr)
    ensures c.Model() == Pruned(old(c.Model()))
    decreases c.repr, 1
  {
    hide Pruned, Dropped, Punched, PullValues, Container.Valid, Container.Model, Container.ItemModels, ValidSlot,
        SlotModel;
    ItemCount(c);
    ghost var models := c.Model().items;
    PunchedAtFirst(models);
    var i := 0;
    while i < |c.items|
      invariant c.Valid() && c.repr == old(c.repr)
      invariant c.Model().Arr? && |c.items| == |c.Model().items|
      invariant 0 <= i <= |c.Model().items| == |models|
      invariant c.Model() == Arr(Punched(models, i))
    {
      PunchedNext(models, i);
      PruneItem(c, i);
      ItemCount(c);
      i := i + 1;
    }
    PullItems(c);
    PullPunched(models, i);
  }

  /** The first `n` elements pruned, with holes for those that are dropped. */
  ghost function Punched(models: seq<Value>, n: nat): seq<Value>
    requires n <= |models|
  {
    seq(n, i requires 0 <= i < n => if Dropped(models[i]) then Undefined else Pruned(models[i])) + models[n..]
  }

  lemma PunchedAtFirst(models: seq<Value>)
    ensures Punched(models, 0) == models
  {
  }

  lemma PunchedNext(models: seq<Value>, n: nat)
    requires n < |models|
    ensures Punched(models, n)[n] == models[n]
    ensures Punched(models, n + 1)
         == Punched(models, n)[n := if Dropped(models[n]) then Undefined else Pruned(models[n])]
  {
  }

  method PruneItem(c: Container, i: nat)
    requires c.Valid() && c.isArray && i < |c.Model().items|
    modifies c.repr
    ensures c.Valid() && c.repr == old(c.repr)
    ensures var before := old(c.Model()).items;
      c.Model() == Arr(before[i := if Dropped(before[i]) then Undefined else Pruned(before[i])])
    decreases c.repr, 0, 1
  {
    hide Pruned, Dropped;
    var gone := PruneItemTree(c, i);
    if gone {
      PunchHole(c, i);
    }
  }

  /** Pruning the tree in one element leaves the array a tree and the other elements as they are. */
  method PruneItemTree(c: Container, i: nat) returns (gone: bool)
    requires c.Valid() && c.isArray && i < |c.Model().items|
    modifies c.repr
    ensures c.Valid() && c.repr == old(c.repr)
    ensures var before := old(c.Model()).items;
      (gone <==> Dropped(before[i])) && c.Model() == Arr(before[i := Pruned(before[i])])
    decreases c.repr, 0, 0
  {
    hide Pruned, Dropped;
    gone := PruneSlot(c.items[i]);
    forall j | 0 <= j < |c.items| && j != i
      ensures ValidSlot(c.items[j]) && Footprint(c.items[j]) == old(Footprint(c.items[j]))
      ensures SlotModel(c.items[j]) == old(SlotModel(c.items[j]))
    {
      assert old(Apart(c.items[j], c.items[i])) && old(ValidSlot(c.items[j]));
      if c.items[j].Ref? {
        var d := c.items[j].c;
        assert old(d.Valid()) && d in old(d.repr);
        assert forall o | o in old(d.repr) :: o !in old(Footprint(c.items[i]));
      }
    }
    assert c.Valid();
  }

  method PunchHole(c: Container, i: nat)
    requires c.Valid() && c.isArray && i < |c.Model().items|
    modifies c
    ensures c.Valid() && c.repr == old(c.repr)
    ensures c.Model() == Arr(old(c.Model()).items[i := Undefined])
  {
    c.items := c.items[i := HOLE];
  }

  /** Removes every `undefined` from the array. */
  method PullItems(c: Container)
    requires c.Valid() && c.isArray
    modifies c
    ensures c.Valid() && c.repr == old(c.repr)
    ensures c.Model() == Arr(PullValues(old(c.Model()).items, |old(c.Model()).items|))
  {
    ghost var models := c.Model().items;
    var kept: seq<Slot> := [];
    for i := 0 to |c.items|
      invariant forall j | 0 <= j < |kept| :: kept[j] in c.items[..i]
      invariant forall j, l | 0 <= j < l < |kept| :: Apart(kept[j], kept[l])
      invariant Stands(kept, PullValues(models, i))
    {
      if c.items[i] != HOLE {
        kept := kept + [c.items[i]];
      }
    }
    SetItems(c, kept, PullValues(models, |models|));
  }

  /** The slots stand for the values. */
  ghost predicate Stands(slots: seq<Slot>, values: seq<Value>)
    reads set s | s in slots && s.Ref? :: s.c, set s, o | s in slots && s.Ref? && o in s.c.repr :: o
  {
    |slots| == |values| && forall j | 0 <= j < |slots| :: ValidSlot(slots[j]) && SlotModel(slots[j]) == values[j]
  }

  method SetItems(c: Container, kept: seq<Slot>, ghost values: seq<Value>)
    requires c.Valid() && c.isArray
    requires forall j | 0 <= j < |kept| :: kept[j] in c.items
    requires forall j, l | 0 <= j < l < |kept| :: Apart(kept[j], kept[l])
    requires Stands(kept, values)
    modifies c
    ensures c.Valid() && c.repr == old(c.repr)
    ensures c.Model() == Arr(values)
  {
    c.items := kept;
    assert c.Valid();
    assert c.ItemModels(|kept|) == values;
  }

  /** The first `n` values without the undefined ones. */
  function PullValues(values: seq<Value>, n: nat): seq<Value>
    requires n <= |values|
  {
    if n == 0 then []
    else if values[n - 1] == Undefined then PullValues(values, n - 1)
    else PullValues(values, n - 1) + [values[n - 1]]
  }

  lemma PullPunched(models: seq<Value>, n: nat)
    requires n == |models|
    ensures Arr(PullValues(Punched(models, n), n)) == Pruned(Arr(models))
  {
    PullIsPruned(models, Punched(models, n), n);
    assert models[..n] == models;
  }

  lemma {:induction false} PullIsPruned(models: seq<Value>, punched: seq<Value>, n: nat)
    requires n <= |models| == |punched|
    requires forall i | 0 <= i < |models| :: punched[i] == if Dropped(models[i]) then Undefined else Pruned(models[i])
    ensures PullValues(punched, n) == PrunedItems(models[..n])
  {
    if n != 0 {
      PullIsPruned(models, punched, n - 1);
      assert models[..n] == models[..n - 1] + [models[n - 1]];
      PrunedItemsSnoc(models[..n - 1], models[n - 1]);
      PrunedIsDefined(models[n - 1]);
    }
  }

  lemma PrunedIsDefined(v: Value)
    ensures !Dropped(v) ==> Pruned(v) != Undefined
  {
  }

  lemma {:induction false} PrunedItemsSnoc(items: seq<Value>, last: Value)
    ensures PrunedItems(items + [last]) == PrunedItems(items) + if Dropped(last) then [] else [Pruned(last)]
  {
    PrunedItemsCons(items + [last]);
    if |items| == 0 {
      assert (items + [last])[1..] == [];
    } else {
      PrunedItemsCons(items);
      assert (items + [last])[1..] == items[1..] + [last];
      PrunedItemsSnoc(items[1..], last);
    }
  }

  // ----- the deep clone, and the whole operation -----

  method CloneSlot(s: Slot) returns (r: Slot)
    requires ValidSlot(s)
    ensures ValidSlot(r) && fresh(Footprint(r))
    ensures SlotModel(r) == SlotModel(s)
    decreases Footprint(s), 3
  {
    match s
    case Atom(v) => r := s;
    case Ref(c) =>
      var clone := Clone(c);
      r := Ref(clone);
  }

  method Clone(c: Container) returns (r: Container)
    requires c.Valid()
    ensures r.Valid() && fresh(r.repr)
    ensures r.Model() == c.Model()
    decreases c.repr, 2
  {
    if c.isArray {
      r := CloneItems(c);
    } else {
      r := CloneFields(c);
    }
  }

  method CloneItems(c: Container) returns (r: Container)
    requires c.Valid() && c.isArray
    ensures r.Valid() && fresh(r.repr)
    ensures r.Model() == c.Model()
    decreases c.repr, 1
  {
    hide Container.Valid, Container.Model, Container.ItemModels, ValidSlot, SlotModel;
    r := new Container(true);
    ItemCount(c);
    ItemCount(r);
    ghost var models := c.Model().items;
    for i := 0 to |c.items|
      invariant c.Valid() && c.Model() == Arr(models)
      invariant r.Valid() && fresh(r.repr) && r.isArray
      invariant r.Model() == Arr(models[..i])
    {
      OneMore(models, i);
      AppendClone(c, i, r);
    }
    assert models[..|models|] == models;
  }

  lemma ItemSlot(c: Container, i: nat)
    requires c.Valid() && c.isArray && i < |c.Model().items|
    ensures i < |c.items| && ValidSlot(c.items[i]) && SlotModel(c.items[i]) == c.Model().items[i]
    ensures c in c.repr && Inside(c.items[i], c.repr - {c})
  {
  }

  lemma FieldSlot(c: Container, k: string)
    requires c.Valid() && !c.isArray && k in c.Model().fields
    ensures k in c.fields && ValidSlot(c.fields[k]) && SlotModel(c.fields[k]) == c.Model().fields[k]
    ensures c in c.repr && Inside(c.fields[k], c.repr - {c})
  {
  }

  method AppendClone(c: Container, i: nat, r: Container)
    requires c.Valid() && c.isArray && i < |c.Model().items|
    requires r.Valid() && r.isArray && r.repr !! c.repr
    modifies r
    ensures r.Valid() && fresh(r.repr - old(r.repr))
    ensures r.Model() == Arr(old(r.Model()).items + [c.Model().items[i]])
    decreases c.repr, 0
  {
    hide Container.Valid, Container.Model, Container.ItemModels, ValidSlot, SlotModel;
    ItemSlot(c, i);
    ItemCount(r);
    var s := CloneSlot(c.items[i]);
    AppendItem(r, s);
  }

  lemma OneMore(models: seq<Value>, i: nat)
    requires i < |models|
    ensures models[..i + 1] == models[..i] + [models[i]]
  {
  }

  lemma OneLess(models: map<string, Value>, keys: set<string>, k: string)
    requires k in models && k in keys
    ensures models - (keys - {k}) == (models - keys)[k := models[k]]
  {
  }

  method AppendItem(r: Container, s: Slot)
    requires r.Valid() && r.isArray && ValidSlot(s) && Footprint(s) !! r.repr
    modifies r
    ensures r.Valid() && r.repr == old(r.repr) + Footprint(s)
    ensures r.Model() == Arr(old(r.Model()).items + [SlotModel(s)])
  {
    ghost var before := r.Model().items;
    r.items := r.items + [s];
    r.repr := r.repr + Footprint(s);
    assert r.Valid();
    assert r.ItemModels(|r.items|) == before + [SlotModel(s)];
  }

  method CloneFields(c: Container) returns (r: Container)
    requires c.Valid() && !c.isArray
    ensures r.Valid() && fresh(r.repr)
    ensures r.Model() == c.Model()
    decreases c.repr, 1
  {
    hide Container.Valid, Container.Model, ValidSlot, SlotModel;
    r := new Container(false);
    FieldNames(c);
    FieldNames(r);
    ghost var models := c.Model().fields;
    var keys := c.fields.Keys;
    while keys != {}
      invariant keys <= models.Keys
      invariant c.Valid() && c.Model() == Obj(models)
      invariant r.Valid() && fresh(r.repr) && !r.isArray
      invariant r.Model() == Obj(models - keys)
      decreases keys
    {
      var k :| k in keys;
      OneLess(models, keys, k);
      AddClone(c, k, r);
      keys := keys - {k};
    }
    assert models - {} == models;
  }

  method AddClone(c: Container, k: string, r: Container)
    requires c.Valid() && !c.isArray && k in c.Model().fields
    requires r.Valid() && !r.isArray && r.repr !! c.repr && k !in r.Model().fields
    modifies r
    ensures r.Valid() && fresh(r.repr - old(r.repr))
    ensures r.Model() == Obj(old(r.Model()).fields[k := c.Model().fields[k]])
    decreases c.repr, 0
  {
    hide Container.Valid, Container.Model, Container.ItemModels, ValidSlot, SlotModel;
    FieldSlot(c, k);
    FieldNames(r);
    var s := CloneSlot(c.fields[k]);
    AddField(r, k, s);
  }

  method AddField(r: Container, k: string, s: Slot)
    requires r.Valid() && !r.isArray && k !in r.Model().fields && ValidSlot(s) && Footprint(s) !! r.repr
    modifies r
    ensures r.Valid() && r.repr == old(r.repr) + Footprint(s)
    ensures r.Model() == Obj(old(r.Model()).fields[k := SlotModel(s)])
  {
    SetField(r, k, s);
  }

  method SetField(r: Container, k: string, s: Slot)
    requires r.Valid() && !r.isArray && k !in r.Model().fields && ValidSlot(s) && Footprint(s) !! r.repr
    modifies r
    ensures r.Valid() && r.repr == old(r.repr) + Footprint(s)
    ensures r.fields == old(r.fields)[k := s] && !r.isArray
    ensures ValidSlot(s) && SlotModel(s) == old(SlotModel(s))
    ensures forall j | j in old(r.fields) ::
      ValidSlot(r.fields[j]) && SlotModel(r.fields[j]) == old(r.Model()).fields[j]
  {
    r.fields := r.fields[k := s];
    r.repr := r.repr + Footprint(s);
  }

  /** The pruned copy of a tree. Nothing that existed before is written: the input stays as it is. */
  method PruneEmpty(root: Slot) returns (r: Slot)
    requires ValidSlot(root)
    ensures ValidSlot(r) && fresh(Footprint(r))
    ensures SlotModel(r) == Pruned(SlotModel(root))
  {
    r := CloneSlot(root);
    var gone := PruneSlot(r);
  }
}
