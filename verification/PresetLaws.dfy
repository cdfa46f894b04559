/** Which of several settings counts: parameters over cached values, later presets over earlier ones. */
module PresetLaws {
  import opened Basics
  import opened TreeMerge
  import opened PresetMerge

  // ----- what counts as empty -----

  /** The names of positions are the decimal numbers. */
  lemma {:induction false} NumberOf(name: string) returns (n: nat)
    requires IsPosition(name)
    ensures Decimal(n) == name && (name != "0" ==> n > 0)
  {
    var init, last := name[..|name| - 1], name[|name| - 1];
    var digit := last as int - '0' as int;
    if |name| == 1 {
      n := digit;
      assert name == [last];
    } else {
      var tens := NumberOf(init);
      n := 10 * tens + digit;
      assert init[0] == name[0] != '0';
      assert n / 10 == tens && n % 10 == digit;
    }
  }

  lemma {:induction false} NumberIsPosition(n: nat)
    ensures IsPosition(Decimal(n)) && (Decimal(n)[0] == '0' ==> n == 0)
  {
    if n >= 10 {
      NumberIsPosition(n / 10);
      assert Decimal(n)[0] == Decimal(n / 10)[0];
    }
  }

  /** Exactly which values are not empty: texts with a letter, objects with a field, arrays with an element. */
  lemma {:induction false} NotEmptyExactly(v: Tree)
    ensures !IsEmpty(v) <==> || (v.Str? && |v.s| > 0)
                             || (v.Node? && !v.isArray && |v.fields| > 0)
                             || (v.Node? && v.isArray && exists n: nat :: Decimal(n) in v.fields)
  {
    if v.Node? {
      if v.isArray {
        if k :| k in v.fields && IsPosition(k) {
          var n := NumberOf(k);
          assert Decimal(n) in v.fields;
        }
        if n: nat :| Decimal(n) in v.fields {
          NumberIsPosition(n);
        }
      } else if v.fields != map[] {
        var k :| k in v.fields;
        assert |v.fields.Keys| > 0;
      }
    }
  }

  // ----- which preset counts -----

  /** In the three fields that are not merged, the last preset that is not empty there counts, whole. */
  lemma {:induction false} LastPresetCounts(presets: seq<Tree>, name: string, i: nat)
    requires ArePresets(presets) && name in {"inflation", "knownRestGateways", "knownPeers"}
    requires i < |presets| && !IsEmpty(Field(presets[i], name))
    requires forall j | i < j < |presets| :: IsEmpty(Field(presets[j], name))
    ensures IsObject(MergePresets(presets)) && name in MergePresets(presets).fields
    ensures MergePresets(presets).fields[name] == presets[i].fields[name]
  {
    hide IsEmpty, MergePresets, MergeAll, LastWins;
    ThreeNames(name);
    MergedField(presets, name);
    LastNonEmptyIs(presets, name, i);
    FieldOfNames(presets[i], name);
  }

  lemma {:induction false} LastNonEmptyIs(presets: seq<Tree>, name: string, i: nat)
    requires i < |presets| && !IsEmpty(Field(presets[i], name))
    requires forall j | i < j < |presets| :: IsEmpty(Field(presets[j], name))
    ensures LastNonEmpty(presets, name) == Some(Field(presets[i], name))
  {
    hide IsEmpty;
    if i < |presets| - 1 {
      LastNonEmptyIs(presets[..|presets| - 1], name, i);
    }
  }

  /** In every other field, what is no container comes from the last preset that gives the field. */
  lemma {:induction false} LastScalarCounts(presets: seq<Tree>, name: string, i: nat)
    requires ArePresets(presets) && name !in {"inflation", "knownRestGateways", "knownPeers"}
    requires i < |presets| && !Field(presets[i], name).Undefined? && !Field(presets[i], name).Node?
    requires forall j | i < j < |presets| :: Field(presets[j], name).Undefined?
    ensures IsObject(MergePresets(presets)) && name in MergePresets(presets).fields
    ensures MergePresets(presets).fields[name] == presets[i].fields[name]
  {
    hide MergePresets, MergeAll, LastWins, LastNonEmpty;
    ThreeNames(name);
    MergedField(presets, name);
    MergedScalar(presets, name, i);
  }

  lemma {:induction false} MergedScalar(presets: seq<Tree>, name: string, i: nat)
    requires ArePresets(presets)
    requires i < |presets| && !Field(presets[i], name).Undefined? && !Field(presets[i], name).Node?
    requires forall j | i < j < |presets| :: Field(presets[j], name).Undefined?
    ensures Field(MergeAll(presets), name) == Field(presets[i], name)
  {
    hide MergeAll, Field;
    var init, last := presets[..|presets| - 1], presets[|presets| - 1];
    assert init + [last] == presets;
    MergeOneMore(init, last, name);
    if i < |presets| - 1 {
      MergedScalar(init, name, i);
      MergeOfUndefined(Field(MergeAll(init), name));
    }
  }

  // ----- which parameter counts -----

  /** The value gives a text, not an empty one, under the name. */
  predicate Says(v: Tree, name: string, text: string) {
    v.Node? && name in v.fields && v.fields[name] == Str(text) && text != ""
  }

  /** The text is the first one given: by the command line, the custom object, the custom file, or the last
      resolution; then the fallback. */
  ghost predicate IsChosen(text: string, given: string, custom: Tree, file: Tree, name: string, last: string,
                           fallback: string) {
    if given != "" then text == given
    else if exists t :: Says(custom, name, t) then Says(custom, name, text)
    else if exists t :: Says(file, name, t) then Says(file, name, text)
    else if last != "" then text == last
    else text == fallback
  }

  lemma TextIsSaid(v: Tree, name: string)
    ensures if exists t :: Says(v, name, t) then Says(v, name, Text(v, name)) else Text(v, name) == ""
  {
    if Text(v, name) != "" {
      assert Says(v, name, Text(v, name));
    }
  }

  lemma ChosenIsGiven(text: string, given: string, custom: Tree, file: Tree, name: string, last: string,
                      fallback: string)
    requires IsChosen(text, given, custom, file, name, last, fallback)
    ensures FirstGiven([given, Text(custom, name), Text(file, name), last, fallback]) == text
  {
    hide Says;
    TextIsSaid(custom, name);
    TextIsSaid(file, name);
    OneSaid(custom, name, text);
    OneSaid(file, name, text);
    FirstOfFive(given, Text(custom, name), Text(file, name), last, fallback);
  }

  lemma OneSaid(v: Tree, name: string, text: string)
    ensures Says(v, name, text) ==> Text(v, name) == text != ""
  {
  }

  lemma FirstOfFive(a: string, b: string, c: string, d: string, e: string)
    ensures FirstGiven([a, b, c, d, e])
         == if a != "" then a else if b != "" then b else if c != "" then c else if d != "" then d else e
  {
    assert [a, b, c, d, e][1..] == [b, c, d, e] && [b, c, d, e][1..] == [c, d, e] && [c, d, e][1..] == [d, e]
        && [d, e][1..] == [e] && [e][1..] == [];
    assert FirstGiven([e]) == e;
    assert FirstGiven([d, e]) == if d != "" then d else e;
    assert FirstGiven([c, d, e]) == if c != "" then c else FirstGiven([d, e]);
  }

  lemma FirstOfFour(a: string, b: string, c: string, d: string)
    ensures FirstGiven([a, b, c, d]) == FirstGiven([a, b, c, d, ""])
  {
    FirstOfFive(a, b, c, d, "");
    assert [a, b, c, d][1..] == [b, c, d] && [b, c, d][1..] == [c, d] && [c, d][1..] == [d] && [d][1..] == [];
    assert FirstGiven([d]) == d;
    assert FirstGiven([c, d]) == if c != "" then c else d;
  }

  /** The preset named first counts, and so does the assembly, for which the preset itself may have a default. The
      resolution succeeds exactly when both are named, their files load, and the merged preset says what kind of
      network it is; it then holds both names and the merge of shared settings, network, assembly and custom
      preset. The custom preset is what is given now, the object over the file; what the last resolution kept
      only when neither has a field; and empty when there is no such thing either. */
  lemma {:induction false} ResolvesFirstGiven(bundle: Bundle, r: Request, before: Option<Generated>, preset: string,
                                              assembly: string)
    requires IsSoundRequest(bundle, r)
    requires IsChosen(preset, r.preset, r.customObject, r.customFile, "preset",
                      if before.Some? then before.value.preset else "", "")
    requires IsChosen(assembly, r.assembly, r.customObject, r.customFile, "assembly",
                      if before.Some? then before.value.assembly else "", bundle.defaultAssembly(preset))
    ensures IsSoundBundle(bundle, preset, assembly) && IsObject(MergePresets([r.customFile, r.customObject]))
    ensures var given, g := MergePresets([r.customFile, r.customObject]), CreatePresetData(bundle, r, before);
      var custom := if given.fields != map[] then given
                    else if before.Some? && IsObject(before.value.cache) then before.value.cache
                    else Node(false, map[]);
      && (preset == "" || bundle.network(preset).Err? || assembly == "" || bundle.assembly(preset, assembly).Err? ==>
            g.Err?)
      && (preset != "" && bundle.network(preset).Ok? && assembly != "" && bundle.assembly(preset, assembly).Ok? ==>
            var merged := MergePresets([bundle.shared, bundle.network(preset).value,
                                        bundle.assembly(preset, assembly).value, custom]);
            && (g.Ok? <==> Field(merged, "networkType") !in {Undefined, Null, NaN, Bool(false), Num(0), Str("")})
            && (g.Ok? ==> g.value == Generated(preset, assembly, merged, custom)))
  {
    hide MergePresets, IsChosen, FirstGiven, Text;
    var last := if before.Some? then before.value.preset else "";
    var lastAssembly := if before.Some? then before.value.assembly else "";
    ChosenIsGiven(preset, r.preset, r.customObject, r.customFile, "preset", last, "");
    FirstOfFour(r.preset, Text(r.customObject, "preset"), Text(r.customFile, "preset"), last);
    ChosenIsGiven(assembly, r.assembly, r.customObject, r.customFile, "assembly", lastAssembly,
                  bundle.defaultAssembly(preset));
    assert ResolvePreset(r, before) == preset && ResolveAssembly(bundle, r, before, preset) == assembly;
    MergedIsObject([r.customFile, r.customObject]);
    assert IsSoundBundle(bundle, preset, assembly);
    var custom := ResolveCustom(r, before);
    if bundle.network(preset).Ok? && bundle.assembly(preset, assembly).Ok? {
      MergedIsObject([bundle.shared, bundle.network(preset).value, bundle.assembly(preset, assembly).value, custom]);
    }
  }
}
