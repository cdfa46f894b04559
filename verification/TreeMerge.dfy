/** Deep merging as lodash's `merge` does it, and when the order of merging does not matter. */
module TreeMerge {
  import opened Basics

  /** A configuration value the way JavaScript holds it: an array is an object too, and its elements are the
      fields named by their positions. Only so can an object be merged into an array. */
  datatype Tree =
    | Undefined
    | Null
    | NaN
    | Bool(b: bool)
    | Num(n: int)
    | Str(s: string)
    | Node(isArray: bool, fields: map<string, Tree>)

  predicate IsFalsy(v: Tree) {
    v.Undefined? || v.Null? || v.NaN? || v == Bool(false) || v == Num(0) || v == Str("")
  }

  /** Fields can be merged into `d`: an object takes no array, an array takes both. */
  predicate Takes(d: Tree, isArray: bool) {
    d.Node? && (d.isArray || !isArray)
  }

  /** The merge of one value into another. `undefined` changes nothing, containers merge by field where the
      first one takes the second, and anything else replaces. */
  function Merge(d: Tree, s: Tree): Tree {
    match s
    case Undefined => d
    case Node(isArray, sf) =>
      if Takes(d, isArray) then
        Node(d.isArray, map k | k in d.fields.Keys + sf.Keys ::
          if k !in sf then d.fields[k] else if k !in d.fields then sf[k] else Merge(d.fields[k], sf[k]))
      else s
    case _ => s
  }

  lemma MergeNodes(d: Tree, s: Tree)
    requires d.Node? && s.Node? && Takes(d, s.isArray)
    ensures var r := Merge(d, s);
      && r.Node? && r.isArray == d.isArray && r.fields.Keys == d.fields.Keys + s.fields.Keys
      && forall k | k in r.fields ::
           r.fields[k] == if k !in s.fields then d.fields[k] else if k !in d.fields then s.fields[k]
                          else Merge(d.fields[k], s.fields[k])
  {
  }

  /** Two objects merge, and so do two arrays; an object merged into an array leaves an array with more fields, and an
      array merged into an object replaces it. Anything but a container replaces and is replaced. */
  lemma {:induction false} ContainersMerge(d: Tree, s: Tree)
    ensures d.Node? && s.Node? && !(s.isArray && !d.isArray) ==>
      var r := Merge(d, s);
      r.Node? && r.isArray == d.isArray && r.fields.Keys == d.fields.Keys + s.fields.Keys
    ensures d.Node? && s.Node? && s.isArray && !d.isArray ==> Merge(d, s) == s
    ensures !(d.Node? && s.Node?) ==> Merge(d, s) == if s.Undefined? then d else s
  {
  }

  lemma MergeKeys(d: Tree, s: Tree)
    requires d.Node? && s.Node? && Takes(d, s.isArray)
    ensures var r := Merge(d, s);
      r.Node? && r.isArray == d.isArray && r.fields.Keys == d.fields.Keys + s.fields.Keys
  {
  }

  /** What stands under a name; `undefined` when nothing does. */
  function Field(v: Tree, name: string): Tree {
    if v.Node? && name in v.fields then v.fields[name] else Undefined
  }

  function Names(v: Tree): set<string> {
    if v.Node? then v.fields.Keys else {}
  }

  lemma MergeOfUndefined(v: Tree)
    ensures Merge(Undefined, v) == v && Merge(v, Undefined) == v
  {
  }

  /** Field by field, a missing field being `undefined`. */
  lemma MergeField(d: Tree, s: Tree, name: string)
    requires d.Node? && s.Node? && Takes(d, s.isArray)
    ensures Merge(d, s).Node?
    ensures name in Merge(d, s).fields <==> name in d.fields || name in s.fields
    ensures Field(Merge(d, s), name) == Merge(Field(d, name), Field(s, name))
  {
    hide Merge;
    MergeNodes(d, s);
    MergeOfUndefined(Field(d, name));
    MergeOfUndefined(Field(s, name));
  }

  lemma SameFields(x: Tree, y: Tree)
    requires x.Node? && y.Node? && x.isArray == y.isArray
    requires x.fields.Keys == y.fields.Keys && forall k | k in x.fields :: Field(x, k) == Field(y, k)
    ensures x == y
  {
    assert forall k | k in x.fields :: x.fields[k] == Field(x, k) && y.fields[k] == Field(y, k);
    assert x.fields == y.fields;
  }

  // ----- which leaf wins -----

  /** `leaf` stands in `v` at the end of the path. */
  predicate HasAt(v: Tree, path: seq<string>, leaf: Tree) {
    if |path| == 0 then v == leaf
    else v.Node? && path[0] in v.fields && HasAt(v.fields[path[0]], path[1..], leaf)
  }

  /** `s` leaves what `d` holds along the path alone: it is silent there, or agrees with `d` in its containers
      until it holds nothing. */
  predicate Silent(d: Tree, s: Tree, path: seq<string>) {
    || s.Undefined?
    || (&& |path| > 0 && s.Node? && Takes(d, s.isArray) && path[0] in d.fields
        && (path[0] !in s.fields || Silent(d.fields[path[0]], s.fields[path[0]], path[1..])))
  }

  /** Leaf by leaf: a merged value holds exactly the leaves of the later value, and those of the earlier one
      about which the later one is silent. */
  lemma {:induction false} MergedLeaves(d: Tree, s: Tree, path: seq<string>, leaf: Tree)
    requires !leaf.Node? && !leaf.Undefined?
    ensures HasAt(Merge(d, s), path, leaf)
        <==> HasAt(s, path, leaf) || (HasAt(d, path, leaf) && Silent(d, s, path))
    decreases |path|
  {
    if |path| != 0 && s.Node? && Takes(d, s.isArray) {
      MergeNodes(d, s);
      var k := path[0];
      if k in d.fields && k in s.fields {
        MergedLeaves(d.fields[k], s.fields[k], path[1..], leaf);
      }
    }
  }

  // ----- merging three values -----

  /** Merging `b` before `c` leaves no trace, whatever they are merged into. */
  predicate Absorbed(b: Tree, c: Tree)
    decreases c
  {
    if b.Undefined? then true
    else if !c.Node? then !c.Undefined?
    else
      && b.Node? && (b.isArray ==> c.isArray)
      && forall k | k in b.fields :: k in c.fields && Absorbed(b.fields[k], c.fields[k])
  }

  /** Merging `b` and `c` beforehand is the same as merging one after the other, whatever they are merged into. */
  predicate Nests(b: Tree, c: Tree)
    decreases c
  {
    if !c.Node? || b.Undefined? then true
    else if !b.Node? then false
    else if !b.isArray && c.isArray then
      forall k | k in b.fields :: k in c.fields && Absorbed(b.fields[k], c.fields[k])
    else
      forall k | k in b.fields && k in c.fields :: Nests(b.fields[k], c.fields[k])
  }

  lemma Replaces(a: Tree, c: Tree)
    requires !c.Undefined? && (c.Node? ==> !Takes(a, c.isArray))
    ensures Merge(a, c) == c
  {
  }

  lemma {:induction false} AbsorbedAlone(b: Tree, c: Tree)
    requires Absorbed(b, c)
    ensures Merge(b, c) == c
    decreases c
  {
    if b.Undefined? {
      MergeOfUndefined(c);
    } else if c.Node? && Takes(b, c.isArray) {
      MergeNodes(b, c);
      forall k | k in b.fields
        ensures Merge(b.fields[k], c.fields[k]) == c.fields[k]
      {
        AbsorbedAlone(b.fields[k], c.fields[k]);
      }
      assert Merge(b, c).fields == c.fields;
    }
  }

  lemma {:induction false} AbsorbedIsGone(a: Tree, b: Tree, c: Tree)
    requires Absorbed(b, c)
    ensures Merge(Merge(a, b), c) == Merge(a, c)
    decreases c
  {
    hide Merge;
    if b.Undefined? {
      MergeOfUndefined(a);
    } else if !c.Node? {
      Replaces(a, c);
      Replaces(Merge(a, b), c);
    } else if !Takes(a, b.isArray) {
      Replaces(a, b);
      AbsorbedAlone(b, c);
      Replaces(a, c);
    } else {
      MergeNodes(a, b);
      if Takes(a, c.isArray) {
        forall k | k in c.fields
          ensures Merge(Merge(Field(a, k), Field(b, k)), Field(c, k)) == Merge(Field(a, k), Field(c, k))
        {
          AbsorbedIsGone(Field(a, k), Field(b, k), Field(c, k));
        }
        TwoIntoOne(a, b, c);
      } else {
        Replaces(a, c);
        Replaces(Merge(a, b), c);
      }
    }
  }

  lemma TwoIntoOneKeys(a: Tree, b: Tree, c: Tree)
    requires b.Node? && c.Node? && Takes(a, b.isArray) && Takes(a, c.isArray) && b.fields.Keys <= c.fields.Keys
    ensures var twice, once := Merge(Merge(a, b), c), Merge(a, c);
      twice.Node? && once.Node? && twice.isArray == once.isArray && twice.fields.Keys == once.fields.Keys
  {
    hide Merge;
    MergeKeys(a, b);
    MergeKeys(Merge(a, b), c);
    MergeKeys(a, c);
  }

  lemma TwoIntoOne(a: Tree, b: Tree, c: Tree)
    requires b.Node? && c.Node? && Takes(a, b.isArray) && Takes(a, c.isArray) && b.fields.Keys <= c.fields.Keys
    requires forall k | k in c.fields ::
      Merge(Merge(Field(a, k), Field(b, k)), Field(c, k)) == Merge(Field(a, k), Field(c, k))
    ensures Merge(Merge(a, b), c) == Merge(a, c)
  {
    hide Merge, Field, Takes;
    TwoIntoOneKeys(a, b, c);
    forall k
      ensures Field(Merge(Merge(a, b), c), k) == Field(Merge(a, c), k)
    {
      FieldOfThree(a, b, c, k);
    }
    SameFields(Merge(Merge(a, b), c), Merge(a, c));
  }

  lemma FieldOfThree(a: Tree, b: Tree, c: Tree, k: string)
    requires b.Node? && c.Node? && Takes(a, b.isArray) && Takes(a, c.isArray) && b.fields.Keys <= c.fields.Keys
    requires k in c.fields ==> Merge(Merge(Field(a, k), Field(b, k)), Field(c, k)) == Merge(Field(a, k), Field(c, k))
    ensures Field(Merge(Merge(a, b), c), k) == Field(Merge(a, c), k)
  {
    hide Merge;
    MergeField(a, b, k);
    MergeKeys(a, b);
    MergeField(Merge(a, b), c, k);
    MergeField(a, c, k);
    MergeOfUndefined(Field(a, k));
  }

  lemma {:induction false} MergeAssociates(a: Tree, b: Tree, c: Tree)
    requires Nests(b, c)
    ensures Merge(Merge(a, b), c) == Merge(a, Merge(b, c))
    decreases c
  {
    hide Merge, Absorbed;
    if c.Undefined? {
      MergeOfUndefined(b);
      MergeOfUndefined(Merge(a, b));
    } else if !c.Node? {
      Replaces(b, c);
      Replaces(a, c);
      Replaces(Merge(a, b), c);
    } else if b.Undefined? {
      MergeOfUndefined(a);
      MergeOfUndefined(c);
    } else if !b.isArray && c.isArray {
      Replaces(b, c);
      ObjectBeforeArray(a, b, c);
    } else {
      forall k
        ensures Merge(Merge(Field(a, k), Field(b, k)), Field(c, k))
            == Merge(Field(a, k), Merge(Field(b, k), Field(c, k)))
      {
        if k in b.fields && k in c.fields {
          MergeAssociates(Field(a, k), Field(b, k), Field(c, k));
        } else {
          AssociatesWhenMissing(Field(a, k), Field(b, k), Field(c, k));
        }
      }
      NodesAssociate(a, b, c);
    }
  }

  lemma AssociatesWhenMissing(a: Tree, b: Tree, c: Tree)
    requires b.Undefined? || c.Undefined?
    ensures Merge(Merge(a, b), c) == Merge(a, Merge(b, c))
  {
  }

  lemma ObjectBeforeArray(a: Tree, b: Tree, c: Tree)
    requires b.Node? && c.Node? && !b.isArray && c.isArray
    requires forall k | k in b.fields :: k in c.fields && Absorbed(b.fields[k], c.fields[k])
    ensures Merge(Merge(a, b), c) == Merge(a, c)
  {
    hide Merge;
    assert Absorbed(b, c);
    AbsorbedIsGone(a, b, c);
  }

  lemma NodesAssociate(a: Tree, b: Tree, c: Tree)
    requires b.Node? && c.Node? && (c.isArray ==> b.isArray)
    requires forall k ::
      Merge(Merge(Field(a, k), Field(b, k)), Field(c, k)) == Merge(Field(a, k), Merge(Field(b, k), Field(c, k)))
    ensures Merge(Merge(a, b), c) == Merge(a, Merge(b, c))
  {
    hide Merge;
    MergeNodes(b, c);
    var bc := Merge(b, c);
    if Takes(a, b.isArray) {
      MergeNodes(a, b);
      var ab := Merge(a, b);
      MergeNodes(ab, c);
      MergeNodes(a, bc);
      forall k | k in Merge(ab, c).fields
        ensures Field(Merge(ab, c), k) == Field(Merge(a, bc), k)
      {
        MergeField(a, b, k);
        MergeField(ab, c, k);
        MergeField(b, c, k);
        MergeField(a, bc, k);
      }
      SameFields(Merge(ab, c), Merge(a, bc));
    } else {
      Replaces(a, b);
      Replaces(a, bc);
    }
  }

  // ----- values a document can hold -----

  /** The positions of an array of `n` elements. */
  ghost function Positions(n: nat): set<string> {
    set i | 0 <= i < n :: Decimal(i)
  }

  /** What a YAML or JSON document can hold: arrays have elements only, one at each position. */
  ghost predicate IsDocument(v: Tree) {
    v.Node? ==>
      && (v.isArray ==> v.fields.Keys == Positions(|v.fields|))
      && forall k | k in v.fields :: IsDocument(v.fields[k])
  }

  lemma {:induction false} PositionsCount(n: nat)
    ensures |Positions(n)| == n
  {
    if n != 0 {
      PositionsCount(n - 1);
      assert Positions(n) == Positions(n - 1) + {Decimal(n - 1)};
      if Decimal(n - 1) in Positions(n - 1) {
        var i :| 0 <= i < n - 1 && Decimal(i) == Decimal(n - 1);
        DecimalIsInjective(i, n - 1);
      }
    }
  }

  /** An array with the same element everywhere. */
  ghost function ArrayOf(v: Tree, n: nat): Tree {
    Node(true, map k | k in Positions(n) :: v)
  }

  lemma ArrayOfIsDocument(v: Tree, n: nat)
    requires IsDocument(v)
    ensures IsDocument(ArrayOf(v, n))
  {
    PositionsCount(n);
    assert ArrayOf(v, n).fields.Keys == Positions(n);
  }

  /** The position behind the last element. */
  lemma NextPosition(v: Tree) returns (k: string)
    requires v.Node? && v.isArray && IsDocument(v)
    ensures k == Decimal(|v.fields|) && k !in v.fields
  {
    var n := |v.fields|;
    k := Decimal(n);
    if k in Positions(n) {
      var i :| 0 <= i < n && Decimal(i) == k;
      DecimalIsInjective(i, n);
    }
  }

  lemma {:induction false} FreshName(names: set<string>) returns (name: string)
    ensures name !in names && forall n | n in names :: |n| < |name|
  {
    if names == {} {
      name := "x";
    } else {
      var n :| n in names;
      var other := FreshName(names - {n});
      name := if |n| < |other| then other else n + "x";
      assert forall m | m in names :: m == n || m in names - {n};
    }
  }

  /** A document with more in it than `c` has, that takes the fields of `c`. */
  lemma Larger(c: Tree) returns (a: Tree, k: string)
    requires c.Node? && IsDocument(c)
    ensures IsDocument(a) && Takes(a, c.isArray) && k in a.fields && k !in c.fields
  {
    if c.isArray {
      k := NextPosition(c);
      a := ArrayOf(Null, |c.fields| + 1);
      ArrayOfIsDocument(Null, |c.fields| + 1);
    } else {
      k := FreshName(c.fields.Keys);
      a := Node(false, map[k := Null]);
    }
  }

  /** A document that holds `inner` under the name, in an array or an object as the other one is. */
  lemma Around(inner: Tree, k: string, like: Tree) returns (a: Tree)
    requires IsDocument(inner) && like.Node? && (like.isArray ==> IsDocument(like) && k in like.fields)
    ensures IsDocument(a) && a.Node? && a.isArray == like.isArray && k in a.fields && a.fields[k] == inner
  {
    if like.isArray {
      a := ArrayOf(inner, |like.fields|);
      ArrayOfIsDocument(inner, |like.fields|);
    } else {
      a := Node(false, map[k := inner]);
    }
  }

  lemma EmptyIsDocument(isArray: bool)
    ensures IsDocument(Node(isArray, map[]))
  {
    assert Positions(0) == {};
  }

  // ----- documents that show the difference -----

  /** A scalar between a container and another: the first container is lost only one way. */
  lemma ScalarShows(b: Tree, c: Tree) returns (a: Tree)
    requires !b.Undefined? && !b.Node? && c.Node? && IsDocument(c)
    ensures IsDocument(a) && Merge(Merge(a, b), c) == c && Merge(b, c) == c && Merge(a, c) != c
  {
    hide Merge;
    var k;
    a, k := Larger(c);
    Replaces(a, b);
    Replaces(b, c);
    MergeNodes(a, c);
  }

  lemma {:induction false} AbsorbingShows(b: Tree, c: Tree) returns (a: Tree)
    requires IsDocument(b) && IsDocument(c) && !Absorbed(b, c)
    ensures IsDocument(a) && Merge(Merge(a, b), c) != Merge(a, c)
    decreases c
  {
    hide Merge;
    if c.Undefined? {
      a := if b.Node? then Null else Node(false, map[]);
      EmptyIsDocument(false);
      Replaces(a, b);
      MergeOfUndefined(a);
      MergeOfUndefined(b);
    } else if !b.Node? {
      a := ScalarShows(b, c);
    } else if b.isArray && !c.isArray {
      a := Node(false, map[]);
      EmptyIsDocument(false);
      Replaces(a, b);
      MergeNodes(b, c);
      MergeNodes(a, c);
    } else if k :| k in b.fields && k !in c.fields {
      a := Node(c.isArray, map[]);
      EmptyIsDocument(c.isArray);
      MergeNodes(a, b);
      MergeNodes(Merge(a, b), c);
      MergeNodes(a, c);
    } else {
      var k :| k in b.fields && k in c.fields && !Absorbed(b.fields[k], c.fields[k]);
      var inner := AbsorbingShows(b.fields[k], c.fields[k]);
      a := Around(inner, k, c);
      MergeNodes(a, b);
      MergeNodes(Merge(a, b), c);
      MergeNodes(a, c);
      assert Merge(Merge(a, b), c).fields[k] == Merge(Merge(inner, b.fields[k]), c.fields[k]);
    }
  }

  lemma {:induction false} NestingShows(b: Tree, c: Tree) returns (a: Tree)
    requires IsDocument(b) && IsDocument(c) && !Nests(b, c)
    ensures IsDocument(a) && Merge(Merge(a, b), c) != Merge(a, Merge(b, c))
    decreases c
  {
    hide Merge, Absorbed;
    if !b.Node? {
      a := ScalarShows(b, c);
    } else if !b.isArray && c.isArray {
      assert !Absorbed(b, c) by {
        ObjectAbsorbed(b, c);
      }
      a := AbsorbingShows(b, c);
      Replaces(b, c);
    } else {
      var k :| k in b.fields && k in c.fields && !Nests(b.fields[k], c.fields[k]);
      var inner := NestingShows(b.fields[k], c.fields[k]);
      a := Around(inner, k, b);
      MergeNodes(a, b);
      MergeNodes(b, c);
      MergeNodes(Merge(a, b), c);
      MergeNodes(a, Merge(b, c));
      assert Merge(Merge(a, b), c).fields[k] == Merge(Merge(inner, b.fields[k]), c.fields[k]);
      assert Merge(a, Merge(b, c)).fields[k] == Merge(inner, Merge(b.fields[k], c.fields[k]));
    }
  }

  lemma ObjectAbsorbed(b: Tree, c: Tree)
    requires b.Node? && c.Node? && !b.isArray && c.isArray
    ensures Absorbed(b, c) <==> Nests(b, c)
  {
  }

  /** Merging two documents beforehand is the same, into whatever document they are merged, exactly when they
      nest. */
  lemma {:induction false} MergeNestsExactlyWhen(b: Tree, c: Tree)
    requires IsDocument(b) && IsDocument(c)
    ensures (forall a | IsDocument(a) :: Merge(Merge(a, b), c) == Merge(a, Merge(b, c))) <==> Nests(b, c)
  {
    hide Merge, Nests, IsDocument;
    if Nests(b, c) {
      forall a | IsDocument(a)
        ensures Merge(Merge(a, b), c) == Merge(a, Merge(b, c))
      {
        MergeAssociates(a, b, c);
      }
    } else {
      var a := NestingShows(b, c);
    }
  }
}
