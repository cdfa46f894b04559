/** Layered presets: deep merging, the fields where the last non-empty preset wins, and the preset cached
    for upgrades. */
module PresetMerge {
  import opened Basics
  import opened TreeMerge

  const LAST_WINS := ["inflation", "knownRestGateways", "knownPeers"]

  /** The names of the positions in an array. */
  predicate IsPosition(name: string) {
    && name != ""
    && (forall i | 0 <= i < |name| :: '0' <= name[i] <= '9')
    && (name[0] == '0' ==> name == "0")
  }

  /** lodash `isEmpty`: an array is empty when it has no elements, whatever else it holds. */
  predicate IsEmpty(v: Tree) {
    match v
    case Str(s) => s == ""
    case Node(isArray, fields) => if isArray then forall k | k in fields :: !IsPosition(k) else fields == map[]
    case _ => true
  }

  /** The field in the last preset where it is not empty. */
  function LastNonEmpty(presets: seq<Tree>, name: string): Option<Tree> {
    if |presets| == 0 then None
    else
      var last := presets[|presets| - 1];
      if !IsEmpty(Field(last, name)) then Some(Field(last, name)) else LastNonEmpty(presets[..|presets| - 1], name)
  }

  function MergeAll(presets: seq<Tree>): Tree {
    if |presets| == 0 then Node(false, map[]) else Merge(MergeAll(presets[..|presets| - 1]), presets[|presets| - 1])
  }

  predicate IsPreset(v: Tree) {
    v.Undefined? || (v.Node? && !v.isArray)
  }

  predicate ArePresets(presets: seq<Tree>) {
    forall i | 0 <= i < |presets| :: IsPreset(presets[i])
  }

  predicate IsObject(v: Tree) {
    v.Node? && !v.isArray
  }

  lemma {:induction false} MergeAllIsObject(presets: seq<Tree>)
    requires ArePresets(presets)
    ensures IsObject(MergeAll(presets))
  {
    if |presets| != 0 {
      MergeAllIsObject(presets[..|presets| - 1]);
    }
  }

  /** The deep merge, with three fields taken whole from the last preset that has them. */
  function MergePresets(presets: seq<Tree>): Tree
    requires ArePresets(presets)
  {
    MergeAllIsObject(presets);
    var merged := MergeAll(presets).fields;
    var names := set i | 0 <= i < |LAST_WINS| && LastNonEmpty(presets, LAST_WINS[i]).Some? :: LAST_WINS[i];
    Node(false, map k | k in merged.Keys + names :: if k in names then LastNonEmpty(presets, k).value else merged[k])
  }

  /** The object a merge builds. */
  class PresetData {
    var fields: map<string, Tree>

    constructor (fields: map<string, Tree>)
      ensures this.fields == fields
    {
      this.fields := fields;
    }
  }

  /** Assigns a field when there is something to assign. */
  function With(fields: map<string, Tree>, name: string, found: Option<Tree>): map<string, Tree> {
    if found.Some? then fields[name := found.value] else fields
  }

  /** The merge step by step: a fresh object, three of whose fields are then assigned. */
  method MergePresetData(presets: seq<Tree>) returns (presetData: PresetData)
    requires ArePresets(presets)
    ensures fresh(presetData) && Node(false, presetData.fields) == MergePresets(presets)
  {
    hide LastNonEmpty, MergeAll, ArePresets, MergePresets;
    MergeAllIsObject(presets);
    presetData := new PresetData(MergeAll(presets).fields);
    var inflation := LastNonEmpty(presets, "inflation");
    var knownRestGateways := LastNonEmpty(presets, "knownRestGateways");
    var knownPeers := LastNonEmpty(presets, "knownPeers");
    if inflation.Some? {
      presetData.fields := presetData.fields["inflation" := inflation.value];
    }
    if knownRestGateways.Some? {
      presetData.fields := presetData.fields["knownRestGateways" := knownRestGateways.value];
    }
    if knownPeers.Some? {
      presetData.fields := presetData.fields["knownPeers" := knownPeers.value];
    }
    AssignedInTurn(presets);
  }

  predicate IsOneOf(k: string, a: string, b: string, c: string) {
    k == a || k == b || k == c
  }

  lemma AssignedThree(m: map<string, Tree>, a: string, b: string, c: string, found: string -> Option<Tree>)
    requires a != b && a != c && b != c
    ensures var r := With(With(With(m, a, found(a)), b, found(b)), c, found(c));
      && (forall k :: k in r <==> k in m || (IsOneOf(k, a, b, c) && found(k).Some?))
      && (forall k | k in r :: r[k] == if IsOneOf(k, a, b, c) && found(k).Some? then found(k).value else m[k])
  {
  }

  lemma ThreeNames(k: string)
    ensures LastWins(k) <==> IsOneOf(k, "inflation", "knownRestGateways", "knownPeers")
    ensures "inflation" != "knownRestGateways" && "inflation" != "knownPeers" && "knownRestGateways" != "knownPeers"
  {
    assert "inflation"[0] == 'i' && "knownPeers"[0] == 'k' && |"knownRestGateways"| == 17 && |"knownPeers"| == 10;
    assert LAST_WINS[0] == "inflation" && LAST_WINS[1] == "knownRestGateways" && LAST_WINS[2] == "knownPeers";
  }

  lemma AssignedInTurn(presets: seq<Tree>)
    requires ArePresets(presets)
    ensures IsObject(MergeAll(presets))
    ensures Node(false, With(With(With(MergeAll(presets).fields, "inflation", LastNonEmpty(presets, "inflation")),
                          "knownRestGateways", LastNonEmpty(presets, "knownRestGateways")),
                     "knownPeers", LastNonEmpty(presets, "knownPeers"))) == MergePresets(presets)
  {
    hide LastNonEmpty, MergeAll, ArePresets, MergePresets, With, LastWins, IsOneOf;
    MergeAllIsObject(presets);
    var found := (name: string) => LastNonEmpty(presets, name);
    var m := MergeAll(presets).fields;
    ThreeNames("");
    AssignedThree(m, "inflation", "knownRestGateways", "knownPeers", found);
    var r := With(With(With(m, "inflation", found("inflation")), "knownRestGateways", found("knownRestGateways")),
                  "knownPeers", found("knownPeers"));
    MergedField(presets, "");
    forall k
      ensures k in r <==> k in MergePresets(presets).fields
      ensures k in r ==> r[k] == MergePresets(presets).fields[k]
    {
      ThreeNames(k);
      MergedField(presets, k);
    }
  }

  predicate LastWins(name: string) {
    exists i | 0 <= i < |LAST_WINS| :: name == LAST_WINS[i]
  }

  /** What a merged preset holds under a name. */
  lemma {:induction false} MergedField(presets: seq<Tree>, name: string)
    requires ArePresets(presets)
    ensures IsObject(MergeAll(presets))
    ensures var r := MergePresets(presets);
      var winner := LastNonEmpty(presets, name);
      && IsObject(r)
      && (name in r.fields <==> name in MergeAll(presets).fields || (LastWins(name) && winner.Some?))
      && Field(r, name) == if LastWins(name) && winner.Some? then winner.value else Field(MergeAll(presets), name)
  {
    MergeAllIsObject(presets);
  }

  lemma {:induction false} LastNonEmptyConcat(a: seq<Tree>, b: seq<Tree>, name: string)
    ensures LastNonEmpty(a + b, name)
        == if LastNonEmpty(b, name).Some? then LastNonEmpty(b, name) else LastNonEmpty(a, name)
  {
    if |b| == 0 {
      assert a + b == a;
    } else {
      assert (a + b)[..|a + b| - 1] == a + b[..|b| - 1];
      LastNonEmptyConcat(a, b[..|b| - 1], name);
    }
  }

  lemma LastNonEmptyOfOne(preset: Tree, name: string)
    ensures LastNonEmpty([preset], name) == if IsEmpty(Field(preset, name)) then None else Some(Field(preset, name))
  {
    assert [preset][..0] == [];
  }

  lemma LastNonEmptyOfTwo(b: Tree, c: Tree, name: string)
    ensures LastNonEmpty([b, c], name)
         == if !IsEmpty(Field(c, name)) then Some(Field(c, name))
            else if !IsEmpty(Field(b, name)) then Some(Field(b, name)) else None
  {
    LastNonEmptyConcat([b], [c], name);
    LastNonEmptyOfOne(b, name);
    LastNonEmptyOfOne(c, name);
    assert [b] + [c] == [b, c];
  }

  // ----- the deep merge of presets, field by field -----

  /** Merging one more preset merges each of its fields. */
  lemma MergeOneMore(presets: seq<Tree>, last: Tree, name: string)
    requires ArePresets(presets) && IsPreset(last)
    ensures ArePresets(presets + [last]) && IsObject(MergeAll(presets)) && IsObject(MergeAll(presets + [last]))
    ensures Field(MergeAll(presets + [last]), name) == Merge(Field(MergeAll(presets), name), Field(last, name))
    ensures name in Names(MergeAll(presets + [last])) <==> name in Names(MergeAll(presets)) || name in Names(last)
  {
    hide Merge;
    var all := presets + [last];
    assert all[..|all| - 1] == presets;
    MergeAllIsObject(presets);
    MergeAllIsObject(all);
    if last.Undefined? {
      MergeOfUndefined(MergeAll(presets));
      MergeOfUndefined(Field(MergeAll(presets), name));
    } else {
      MergeField(MergeAll(presets), last, name);
    }
  }

  lemma MergeTwoMore(outer: seq<Tree>, b: Tree, c: Tree, name: string)
    requires ArePresets(outer) && IsPreset(b) && IsPreset(c)
    ensures ArePresets(outer + [b, c]) && IsObject(MergeAll(outer)) && IsObject(MergeAll(outer + [b, c]))
    ensures Field(MergeAll(outer + [b, c]), name)
        == Merge(Merge(Field(MergeAll(outer), name), Field(b, name)), Field(c, name))
    ensures name in Names(MergeAll(outer + [b, c]))
        <==> name in Names(MergeAll(outer)) || name in Names(b) || name in Names(c)
  {
    hide Merge, MergeAll;
    MergeOneMore(outer, b, name);
    MergeOneMore(outer + [b], c, name);
    assert outer + [b] + [c] == outer + [b, c];
  }

  lemma MergeOfTwo(b: Tree, c: Tree, name: string)
    requires IsPreset(b) && IsPreset(c)
    ensures ArePresets([b, c]) && IsObject(MergeAll([b, c]))
    ensures Field(MergeAll([b, c]), name) == Merge(Field(b, name), Field(c, name))
    ensures name in Names(MergeAll([b, c])) <==> name in Names(b) || name in Names(c)
  {
    hide Merge;
    MergeTwoMore([], b, c, name);
    assert [] + [b, c] == [b, c];
    assert MergeAll([]) == Node(false, map[]);
    MergeOfUndefined(Field(b, name));
  }

  // ----- when nested merging is flat -----

  /** A scalar, or a container without contents. */
  predicate IsHollow(v: Tree) {
    v.Node? ==> v.fields == map[]
  }

  lemma EmptyIsHollow(v: Tree)
    requires IsDocument(v) && IsEmpty(v)
    ensures IsHollow(v)
  {
    if v.Node? && v.isArray && v.fields != map[] {
      assert Decimal(0) in Positions(|v.fields|);
      assert Decimal(0) == "0" && IsPosition("0");
    }
  }

  lemma MergeOfHollow(d: Tree, s: Tree)
    requires IsHollow(d) && IsHollow(s)
    ensures IsHollow(Merge(d, s))
    ensures (d.Str? ==> d.s == "") && (s.Str? ==> s.s == "") ==> IsEmpty(Merge(d, s))
  {
  }

  /** A scalar before an empty object. */
  predicate IsCleared(x: Tree, y: Tree) {
    !x.Undefined? && !x.Node? && y == Node(false, map[])
  }

  /** Hollow values associate, except for one family: an empty array, a scalar and an empty object. */
  lemma HollowAssociate(x: Tree, b: Tree, c: Tree)
    requires IsHollow(x) && IsHollow(b) && IsHollow(c)
    ensures Merge(Merge(x, b), c) == Merge(x, Merge(b, c)) <==> !(IsCleared(b, c) && x == Node(true, map[]))
  {
  }

  /** Two values of one field that may be merged beforehand. In a field where the last preset wins that only
      matters when both are empty. */
  predicate FieldNests(name: string, x: Tree, y: Tree) {
    if LastWins(name) then !(IsEmpty(x) && IsCleared(x, y)) else Nests(x, y)
  }

  /** Two presets that may be merged beforehand: each field they share may be. */
  predicate NestAsPresets(b: Tree, c: Tree) {
    forall name | name in Names(b) && name in Names(c) :: FieldNests(name, Field(b, name), Field(c, name))
  }

  ghost predicate AreDocuments(presets: seq<Tree>) {
    ArePresets(presets) && forall i | 0 <= i < |presets| :: IsDocument(presets[i])
  }

  /** Merging two presets first and the result onto the others is merging them all at once. */
  ghost predicate MergesFlat(outer: seq<Tree>, b: Tree, c: Tree)
    requires ArePresets(outer) && IsPreset(b) && IsPreset(c)
  {
    MergedField([b, c], "");
    MergePresets(outer + [MergePresets([b, c])]) == MergePresets(outer + [b, c])
  }

  lemma FieldIsDocument(v: Tree, name: string)
    requires IsDocument(v)
    ensures IsDocument(Field(v, name))
  {
  }

  lemma FieldNestsIfMissing(b: Tree, c: Tree, name: string)
    requires NestAsPresets(b, c)
    ensures FieldNests(name, Field(b, name), Field(c, name))
  {
  }

  lemma {:induction false} HollowSoFar(presets: seq<Tree>, name: string)
    requires AreDocuments(presets) && LastNonEmpty(presets, name).None?
    ensures IsHollow(Field(MergeAll(presets), name))
  {
    hide Merge, IsEmpty;
    if |presets| != 0 {
      var init, last := presets[..|presets| - 1], presets[|presets| - 1];
      assert init + [last] == presets;
      HollowSoFar(init, name);
      MergeOneMore(init, last, name);
      FieldIsDocument(last, name);
      EmptyIsHollow(Field(last, name));
      MergeOfHollow(Field(MergeAll(init), name), Field(last, name));
    }
  }

  /** What the presets merged beforehand hold under a name. */
  lemma InnerField(b: Tree, c: Tree, name: string)
    requires IsPreset(b) && IsPreset(c) && IsDocument(b) && IsDocument(c)
    ensures var inner := MergePresets([b, c]);
      && ArePresets([b, c]) && IsObject(inner)
      && (name in inner.fields <==> name in Names(b) || name in Names(c))
      && Field(inner, name)
          == (if LastWins(name) && LastNonEmpty([b, c], name).Some? then LastNonEmpty([b, c], name).value
                                else Merge(Field(b, name), Field(c, name)))
      && (LastWins(name) ==> LastNonEmpty([inner], name) == LastNonEmpty([b, c], name))
  {
    hide Merge, IsDocument, IsEmpty, LastWins;
    MergeOfTwo(b, c, name);
    MergedField([b, c], name);
    LastNonEmptyOfTwo(b, c, name);
    LastNonEmptyOfOne(MergePresets([b, c]), name);
    FieldOfNames(b, name);
    FieldOfNames(c, name);
    if LastNonEmpty([b, c], name).None? {
      EmptyTogether(b, c, name);
    }
  }

  lemma FieldOfNames(v: Tree, name: string)
    ensures !IsEmpty(Field(v, name)) ==> name in Names(v)
  {
  }

  lemma EmptyTogether(b: Tree, c: Tree, name: string)
    requires IsDocument(b) && IsDocument(c) && IsEmpty(Field(b, name)) && IsEmpty(Field(c, name))
    ensures IsEmpty(Merge(Field(b, name), Field(c, name)))
  {
    FieldIsDocument(b, name);
    FieldIsDocument(c, name);
    EmptyIsHollow(Field(b, name));
    EmptyIsHollow(Field(c, name));
    MergeOfHollow(Field(b, name), Field(c, name));
  }

  /** Under one name: nested and flat merging hold it both or neither; and they hold the same unless no preset
      has a winner for it and merging the three values depends on the order. */
  lemma NestedField(outer: seq<Tree>, b: Tree, c: Tree, name: string)
    requires AreDocuments(outer) && IsPreset(b) && IsPreset(c) && IsDocument(b) && IsDocument(c)
    ensures ArePresets(outer + [MergePresets([b, c])]) && ArePresets(outer + [b, c])
    ensures var x := Field(MergeAll(outer), name);
      var nested, flat := MergePresets(outer + [MergePresets([b, c])]), MergePresets(outer + [b, c]);
      && IsObject(nested) && IsObject(flat)
      && (name in nested.fields <==> name in flat.fields)
      && (if LastWins(name) && LastNonEmpty(outer + [b, c], name).Some? then Field(nested, name) == Field(flat, name)
          else && Field(nested, name) == Merge(x, Merge(Field(b, name), Field(c, name)))
               && Field(flat, name) == Merge(Merge(x, Field(b, name)), Field(c, name)))
  {
    hide Merge, MergePresets, MergeAll, LastNonEmpty, IsDocument, IsEmpty, LastWins;
    var inner := MergePresets([b, c]);
    InnerField(b, c, name);
    MergeOneMore(outer, inner, name);
    MergeTwoMore(outer, b, c, name);
    MergedField(outer + [inner], name);
    MergedField(outer + [b, c], name);
    LastNonEmptyConcat(outer, [inner], name);
    LastNonEmptyConcat(outer, [b, c], name);
  }

  lemma SamePresets(x: Tree, y: Tree)
    requires IsObject(x) && IsObject(y)
    requires forall name :: (name in x.fields <==> name in y.fields) && Field(x, name) == Field(y, name)
    ensures x == y
  {
    SameFields(x, y);
  }

  /** Nested merging is flat merging, in the fields where the last preset wins too, for presets that nest. */
  lemma {:induction false} NestedIsFlat(outer: seq<Tree>, b: Tree, c: Tree)
    requires AreDocuments(outer) && IsPreset(b) && IsPreset(c) && IsDocument(b) && IsDocument(c)
    requires NestAsPresets(b, c)
    ensures MergesFlat(outer, b, c)
  {
    hide Merge, MergePresets, MergeAll, LastNonEmpty, IsDocument, IsEmpty, LastWins, NestAsPresets, FieldNests, Field;
    MergedField([b, c], "");
    var nested, flat := MergePresets(outer + [MergePresets([b, c])]), MergePresets(outer + [b, c]);
    NestedField(outer, b, c, "");
    forall name
      ensures (name in nested.fields <==> name in flat.fields) && Field(nested, name) == Field(flat, name)
    {
      NestedField(outer, b, c, name);
      FieldAssociates(outer, b, c, name);
    }
    SamePresets(nested, flat);
  }

  lemma FieldAssociates(outer: seq<Tree>, b: Tree, c: Tree, name: string)
    requires AreDocuments(outer) && IsPreset(b) && IsPreset(c) && IsDocument(b) && IsDocument(c)
    requires NestAsPresets(b, c)
    ensures (LastWins(name) && LastNonEmpty(outer + [b, c], name).Some?)
         || Merge(Field(MergeAll(outer), name), Merge(Field(b, name), Field(c, name)))
            == Merge(Merge(Field(MergeAll(outer), name), Field(b, name)), Field(c, name))
  {
    hide Merge, MergeAll, IsDocument, LastWins, Nests, IsEmpty;
    FieldNestsIfMissing(b, c, name);
    LastNonEmptyConcat(outer, [b, c], name);
    LastNonEmptyOfTwo(b, c, name);
    var x := Field(MergeAll(outer), name);
    if !LastWins(name) {
      MergeAssociates(x, Field(b, name), Field(c, name));
    } else if LastNonEmpty(outer + [b, c], name).None? {
      HollowSoFar(outer, name);
      FieldIsDocument(b, name);
      FieldIsDocument(c, name);
      EmptyIsHollow(Field(b, name));
      EmptyIsHollow(Field(c, name));
      HollowAssociate(x, Field(b, name), Field(c, name));
    }
  }

  /** A preset with one field. */
  function OneField(name: string, v: Tree): Tree {
    Node(false, map[name := v])
  }

  lemma OneFieldMerged(name: string, v: Tree)
    requires IsDocument(v)
    ensures AreDocuments([OneField(name, v)]) && Field(MergeAll([OneField(name, v)]), name) == v
    ensures LastNonEmpty([OneField(name, v)], name) == if IsEmpty(v) then None else Some(v)
  {
    LastNonEmptyOfOne(OneField(name, v), name);
    MergeOneMore([], OneField(name, v), name);
    assert [] + [OneField(name, v)] == [OneField(name, v)];
  }

  /** A field that does not nest shows in some preset the two are merged onto. */
  lemma NestingShowsInPreset(b: Tree, c: Tree) returns (outer: seq<Tree>)
    requires IsPreset(b) && IsPreset(c) && IsDocument(b) && IsDocument(c) && !NestAsPresets(b, c)
    ensures AreDocuments(outer) && !MergesFlat(outer, b, c)
  {
    hide Merge, MergePresets, MergeAll, LastNonEmpty, IsDocument, IsEmpty, LastWins, Nests;
    var name :| name in Names(b) && name in Names(c) && !FieldNests(name, Field(b, name), Field(c, name));
    FieldIsDocument(b, name);
    FieldIsDocument(c, name);
    var v;
    if LastWins(name) {
      v := Node(true, map[]);
      EmptyIsDocument(true);
      EmptiesHaveNoWinner(b, c, name, v);
      EmptyIsHollow(Field(b, name));
      HollowAssociate(v, Field(b, name), Field(c, name));
    } else {
      v := NestingShows(Field(b, name), Field(c, name));
    }
    OneFieldMerged(name, v);
    outer := [OneField(name, v)];
    NestedField(outer, b, c, name);
  }

  lemma EmptiesHaveNoWinner(b: Tree, c: Tree, name: string, v: Tree)
    requires IsEmpty(Field(b, name)) && Field(c, name) == Node(false, map[]) && v == Node(true, map[])
    ensures LastNonEmpty([OneField(name, v)] + [b, c], name).None?
  {
    LastNonEmptyConcat([OneField(name, v)], [b, c], name);
    LastNonEmptyOfTwo(b, c, name);
    LastNonEmptyOfOne(OneField(name, v), name);
  }

  /** Merging two presets beforehand is the same, onto whatever presets they are merged, exactly when every
      field they share nests: by its values, or, where the last preset wins, unless an empty scalar comes
      before an empty object. */
  lemma {:induction false} NestingIsFlatExactlyWhen(b: Tree, c: Tree)
    requires IsPreset(b) && IsPreset(c) && IsDocument(b) && IsDocument(c)
    ensures (forall outer | AreDocuments(outer) :: MergesFlat(outer, b, c)) <==> NestAsPresets(b, c)
  {
    hide MergesFlat, NestAsPresets, IsDocument;
    if NestAsPresets(b, c) {
      forall outer | AreDocuments(outer)
        ensures MergesFlat(outer, b, c)
      {
        NestedIsFlat(outer, b, c);
      }
    } else {
      var outer := NestingShowsInPreset(b, c);
    }
  }

  lemma NumberForgotten(kept: Tree)
    requires IsObject(kept) && kept.fields != map[]
    ensures Merge(Merge(kept, Num(1)), Node(false, map[])) == Node(false, map[])
    ensures Merge(kept, Merge(Num(1), Node(false, map[]))) != Node(false, map[])
  {
    MergeNodes(kept, Node(false, map[]));
  }

  lemma OrdinaryName()
    ensures !LastWins("x")
  {
    assert |LAST_WINS[0]| == 9 && |LAST_WINS[1]| == 17 && |LAST_WINS[2]| == 10;
  }

  /** For instance, a number before an empty object: merging the two first forgets the number, so that what
      the number would have replaced is kept. */
  lemma {:induction false} NumberBeforeObjectExample()
    ensures var outer := [OneField("x", OneField("y", Null))];
      var b, c := OneField("x", Num(1)), OneField("x", Node(false, map[]));
      AreDocuments(outer) && !MergesFlat(outer, b, c)
  {
    hide Merge, MergePresets, MergeAll, LastNonEmpty, IsEmpty, LastWins;
    var kept := OneField("y", Null);
    var outer := [OneField("x", kept)];
    var b, c := OneField("x", Num(1)), OneField("x", Node(false, map[]));
    OrdinaryName();
    OneFieldMerged("x", kept);
    NestedField(outer, b, c, "x");
    assert "y" in kept.fields;
    NumberForgotten(kept);
  }

  // ----- resolving a configuration, and upgrading it -----

  /** The preset files that come with the program: shared settings, one preset per network name, one
      assembly per network and assembly name, and the assembly a network uses by default. */
  datatype Bundle = Bundle(shared: Tree, network: string -> Result<Tree>, assembly: (string, string) -> Result<Tree>,
                           defaultAssembly: string -> string)

  predicate IsSoundBundle(bundle: Bundle, preset: string, assembly: string) {
    && IsPreset(bundle.shared)
    && (bundle.network(preset).Ok? ==> IsPreset(bundle.network(preset).value))
    && (bundle.assembly(preset, assembly).Ok? ==> IsPreset(bundle.assembly(preset, assembly).value))
  }

  /** The parameters of one resolution; an empty text stands for one that is not given. */
  datatype Request = Request(preset: string, assembly: string, customFile: Tree, customObject: Tree)

  const NO_REQUEST := Request("", "", Node(false, map[]), Undefined)

  /** What a resolution leaves for later ones. */
  datatype Generated = Generated(preset: string, assembly: string, merged: Tree, cache: Tree)

  function Text(v: Tree, name: string): string {
    if Field(v, name).Str? then Field(v, name).s else ""
  }

  function FirstGiven(texts: seq<string>): string {
    if |texts| == 0 then "" else if texts[0] != "" then texts[0] else FirstGiven(texts[1..])
  }

  function ResolvePreset(r: Request, before: Option<Generated>): string {
    FirstGiven([r.preset, Text(r.customObject, "preset"), Text(r.customFile, "preset"),
                if before.Some? then before.value.preset else ""])
  }

  function ResolveAssembly(bundle: Bundle, r: Request, before: Option<Generated>, preset: string): string {
    FirstGiven([r.assembly, Text(r.customObject, "assembly"), Text(r.customFile, "assembly"),
                if before.Some? then before.value.assembly else "", bundle.defaultAssembly(preset)])
  }

  /** The custom part: what is provided now, or else what the last resolution kept. */
  function ResolveCustom(r: Request, before: Option<Generated>): Tree
    requires IsPreset(r.customFile) && IsPreset(r.customObject)
  {
    var provided := MergePresets([r.customFile, r.customObject]);
    if !IsEmpty(provided) then provided
    else if before.Some? && IsObject(before.value.cache) then before.value.cache
    else Node(false, map[])
  }

  ghost predicate IsSoundRequest(bundle: Bundle, r: Request) {
    IsPreset(r.customFile) && IsPreset(r.customObject)
        && forall preset, assembly :: IsSoundBundle(bundle, preset, assembly)
  }

  ghost function CreatePresetData(bundle: Bundle, r: Request, before: Option<Generated>): Result<Generated>
    requires IsSoundRequest(bundle, r)
  {
    var preset := ResolvePreset(r, before);
    if preset == "" then Err("Preset value could not be resolved")
    else
      var assembly := ResolveAssembly(bundle, r, before, preset);
      assert IsSoundBundle(bundle, preset, assembly);
      match bundle.network(preset)
      case Err(e) => Err(e)
      case Ok(network) =>
        if assembly == "" then Err("Preset requires assembly")
        else
          match bundle.assembly(preset, assembly)
          case Err(e) => Err(e)
          case Ok(assemblyPreset) =>
            var custom := ResolveCustom(r, before);
            MergedIsObject([r.customFile, r.customObject]);
            var merged := MergePresets([bundle.shared, network, assemblyPreset, custom]);
            if IsFalsy(Field(merged, "networkType")) then Err("Network Type could not be resolved")
            else Ok(Generated(preset, assembly, merged, custom))
  }

  lemma MergedIsObject(presets: seq<Tree>)
    requires ArePresets(presets)
    ensures IsObject(MergePresets(presets))
  {
  }

  /** Upgrades without any request: each one resolves from what the one before has left. */
  ghost function Upgrade(bundle: Bundle, g: Generated, times: nat): Result<Generated>
    requires IsSoundRequest(bundle, NO_REQUEST)
  {
    if times == 0 then Ok(g)
    else
      match Upgrade(bundle, g, times - 1)
      case Err(e) => Err(e)
      case Ok(last) => CreatePresetData(bundle, NO_REQUEST, Some(last))
  }

  lemma NothingProvided(before: Generated)
    requires IsObject(before.cache)
    ensures ResolveCustom(NO_REQUEST, Some(before)) == before.cache
  {
    MergeOfUndefined(Node(false, map[]));
    assert Merge(Node(false, map[]), Node(false, map[])).fields == map[];
    var presets := [Node(false, map[]), Undefined];
    assert presets[..1] == [Node(false, map[])] && presets[..1][..0] == [];
    assert MergeAll(presets[..1]) == Node(false, map[]);
    forall name
      ensures LastNonEmpty(presets, name).None?
    {
      assert LastNonEmpty(presets[..1], name).None?;
    }
    assert MergePresets(presets).fields == map[];
  }

  /** One upgrade of any resolved configuration reproduces it. */
  lemma {:induction false} UpgradeReproduces(bundle: Bundle, r: Request, before: Option<Generated>)
    requires IsSoundRequest(bundle, r) && CreatePresetData(bundle, r, before).Ok?
    ensures IsSoundRequest(bundle, NO_REQUEST)
    ensures var g := CreatePresetData(bundle, r, before).value;
      CreatePresetData(bundle, NO_REQUEST, Some(g)) == Ok(g)
  {
    hide MergePresets;
    var g := CreatePresetData(bundle, r, before).value;
    MergedIsObject([r.customFile, r.customObject]);
    NothingProvided(g);
    GivenBefore(g.preset, []);
    GivenBefore(g.assembly, [bundle.defaultAssembly(g.preset)]);
    assert Text(NO_REQUEST.customObject, "assembly") == "" && Text(NO_REQUEST.customFile, "assembly") == "";
    assert ["", "", "", g.assembly] + [bundle.defaultAssembly(g.preset)]
        == ["", "", "", g.assembly, bundle.defaultAssembly(g.preset)];
    assert ResolvePreset(NO_REQUEST, Some(g)) == g.preset;
    assert ResolveAssembly(bundle, NO_REQUEST, Some(g), g.preset) == g.assembly;
  }

  lemma GivenBefore(text: string, rest: seq<string>)
    requires text != ""
    ensures FirstGiven(["", "", "", text] + rest) == text
    ensures ["", "", "", text] + [] == ["", "", "", text]
  {
    var all := ["", "", "", text] + rest;
    assert all[1..] == ["", "", text] + rest && all[1..][1..] == ["", text] + rest
        && all[1..][1..][1..] == [text] + rest;
    assert FirstGiven([text] + rest) == text;
    assert FirstGiven(["", text] + rest) == text;
    assert FirstGiven(["", "", text] + rest) == text;
  }

  /** Any chain of upgrades without a request reproduces the same configuration from the cached preset. */
  lemma {:induction false} UpgradesReproduce(bundle: Bundle, r: Request, before: Option<Generated>, times: nat)
    requires IsSoundRequest(bundle, r) && CreatePresetData(bundle, r, before).Ok?
    ensures IsSoundRequest(bundle, NO_REQUEST)
    ensures Upgrade(bundle, CreatePresetData(bundle, r, before).value, times) == CreatePresetData(bundle, r, before)
  {
    hide CreatePresetData;
    UpgradeReproduces(bundle, r, before);
    if times != 0 {
      UpgradesReproduce(bundle, r, before, times - 1);
    }
  }

  /** Presets as documents hold them. */
  ghost predicate IsDocumentBundle(bundle: Bundle) {
    && IsDocument(bundle.shared)
    && (forall preset | bundle.network(preset).Ok? :: IsDocument(bundle.network(preset).value))
    && forall preset, assembly | bundle.assembly(preset, assembly).Ok? ::
        IsDocument(bundle.assembly(preset, assembly).value)
  }

  /** With custom presets that nest, the configuration is the flat merge of all five presets. */
  lemma {:induction false} ResolvedIsFiveWayMerge(bundle: Bundle, r: Request, before: Option<Generated>)
    requires IsSoundRequest(bundle, r) && CreatePresetData(bundle, r, before).Ok?
    requires IsDocumentBundle(bundle) && IsDocument(r.customFile) && IsDocument(r.customObject)
    requires NestAsPresets(r.customFile, r.customObject)
    requires !IsEmpty(MergePresets([r.customFile, r.customObject]))
    ensures var g := CreatePresetData(bundle, r, before).value;
      && bundle.network(g.preset).Ok? && bundle.assembly(g.preset, g.assembly).Ok?
      && IsSoundBundle(bundle, g.preset, g.assembly)
      && g.merged == MergePresets([bundle.shared, bundle.network(g.preset).value,
                                   bundle.assembly(g.preset, g.assembly).value,
                                   r.customFile, r.customObject])
  {
    hide MergePresets, IsEmpty, NestAsPresets, IsDocument;
    var g := CreatePresetData(bundle, r, before).value;
    assert IsSoundBundle(bundle, g.preset, g.assembly);
    var outer := [bundle.shared, bundle.network(g.preset).value, bundle.assembly(g.preset, g.assembly).value];
    NestedIsFlat(outer, r.customFile, r.customObject);
    assert outer + [MergePresets([r.customFile, r.customObject])]
        == [outer[0], outer[1], outer[2], MergePresets([r.customFile, r.customObject])];
    assert outer + [r.customFile, r.customObject] == [outer[0], outer[1], outer[2], r.customFile, r.customObject];
  }
}
