/** Upgrading from the saved preset: what the file keeps of the custom preset, and what an upgrade makes of it. */
module SavedPresets {
  import opened Basics
  import opened TreeMerge
  import opened PresetMerge
  import J = JsonValues
  import C = CryptoUtils
  import S = StripLists
  import L = SecretLaws

  // ----- a document as JavaScript holds it -----

  ghost function PositionOf(k: string, n: nat): (i: nat)
    requires k in Positions(n)
    ensures i < n && Decimal(i) == k
  {
    var i :| 0 <= i < n && Decimal(i) == k;
    i
  }

  ghost function Grow(v: J.Value): Tree {
    match v
    case Undefined => Tree.Undefined
    case Null => Tree.Null
    case NaN => Tree.NaN
    case Bool(b) => Tree.Bool(b)
    case Num(n) => Tree.Num(n)
    case Str(s) => Tree.Str(s)
    case Arr(items) => Node(true, map k | k in Positions(|items|) :: Grow(items[PositionOf(k, |items|)]))
    case Obj(fields) => Node(false, map k | k in fields :: Grow(fields[k]))
  }

  lemma GrowElement(items: seq<J.Value>, i: nat)
    requires i < |items|
    ensures var r := Grow(J.Arr(items)); r.Node? && Decimal(i) in r.fields && r.fields[Decimal(i)] == Grow(items[i])
  {
    assert Decimal(i) in Positions(|items|);
    DecimalIsInjective(PositionOf(Decimal(i), |items|), i);
  }

  /** Different documents stay different. */
  lemma {:induction false} GrowIsInjective(a: J.Value, b: J.Value)
    requires Grow(a) == Grow(b)
    ensures a == b
  {
    match a
    case Arr(items) =>
      assert Grow(a).fields.Keys == Positions(|items|) && Grow(b).fields.Keys == Positions(|b.items|);
      PositionsCount(|items|);
      PositionsCount(|b.items|);
      forall i | 0 <= i < |items|
        ensures items[i] == b.items[i]
      {
        GrowElement(items, i);
        GrowElement(b.items, i);
        GrowIsInjective(items[i], b.items[i]);
      }
    case Obj(fields) =>
      assert Grow(a).fields.Keys == fields.Keys && Grow(b).fields.Keys == b.fields.Keys;
      forall k | k in fields
        ensures fields[k] == b.fields[k]
      {
        assert Grow(a).fields[k] == Grow(fields[k]) && Grow(b).fields[k] == Grow(b.fields[k]);
        GrowIsInjective(fields[k], b.fields[k]);
      }
      assert fields == b.fields;
    case _ =>
  }

  // ----- writing a file and loading it -----

  /** `false`, nothing, or a text; an empty text is as good as nothing. */
  datatype Password = NoPassword | NotGiven | Given(text: string)

  function Written(c: C.Cipher, v: J.Value, password: Password): J.Value {
    if password.Given? && password.text != "" then C.Encrypt(c, v, password.text, "") else v
  }

  ghost function Loaded(c: C.Cipher, file: J.Value, password: Password): Result<J.Value> {
    if password.Given? && password.text != "" then C.Decrypt(c, file, password.text, "")
    else if !password.NoPassword? && C.EncryptedCount(file, "") > 0 then Err("no password has been provided")
    else Ok(file)
  }

  lemma {:induction false} NoSecretIsEncrypted(v: J.Value, name: string)
    requires C.SecretCount(v, name) == 0
    ensures C.EncryptedCount(v, name) == 0
  {
    hide C.IsEncryptableName;
    match v
    case Arr(items) =>
      var secrets := seq(|items|, i requires 0 <= i < |items| => C.SecretCount(items[i], ""));
      var encrypted := seq(|items|, i requires 0 <= i < |items| => C.EncryptedCount(items[i], ""));
      J.SumSeqZero(secrets);
      forall i | 0 <= i < |items|
        ensures encrypted[i] == 0
      {
        assert secrets[i] == 0;
        NoSecretIsEncrypted(items[i], "");
      }
      J.SumSeqZero(encrypted);
    case Obj(fields) =>
      var secrets := map k | k in fields :: C.SecretCount(fields[k], k);
      var encrypted := map k | k in fields :: C.EncryptedCount(fields[k], k);
      J.SumMapZero(secrets);
      forall k | k in encrypted
        ensures encrypted[k] == 0
      {
        assert secrets[k] == 0;
        NoSecretIsEncrypted(fields[k], k);
      }
      J.SumMapZero(encrypted);
    case _ =>
  }

  /** With any password, what was saved without its private keys loads as it was saved. */
  lemma {:induction false} SavedLoads(c: C.Cipher, v: J.Value, password: Password)
    requires C.Correct(c)
    ensures var saved := C.RemovePrivateKeys(v, []); Loaded(c, Written(c, saved, password), password) == Ok(saved)
  {
    hide C.RemovePrivateKeys, C.Encrypt, C.Decrypt, C.EncryptedCount, C.SecretCount;
    var saved := C.RemovePrivateKeys(v, []);
    C.StripAllLeavesNone(v, "");
    NoSecretIsEncrypted(saved, "");
    if password.Given? {
      C.DecryptUndoesEncrypt(c, saved, password.text, "");
    }
  }

  /** When a file loads: with a password exactly when every marked secret opens with it; without one exactly when no
      marked secret stands in it; and always, as it stands, when passwords are turned off. */
  lemma {:induction false} LoadsExactlyWhen(c: C.Cipher, file: J.Value, text: string)
    ensures text != "" ==> (Loaded(c, file, Given(text)).Ok? <==> L.AllOpen(c, file, text, ""))
    ensures forall password | password == NotGiven || password == Given("") ::
      if forall path: seq<J.Step>, leaf: J.Value | J.IsLeaf(leaf) && J.HasAt(file, path, leaf) ::
           !L.IsMarked(path, "", leaf)
      then Loaded(c, file, password) == Ok(file) else Loaded(c, file, password).Err?
    ensures Loaded(c, file, NoPassword) == Ok(file)
  {
    hide C.Decrypt, C.EncryptedCount, L.AllOpen, L.IsMarked, J.HasAt;
    L.DecryptsExactlyWhen(c, file, text, "");
    L.CountIsZeroExactlyWhen(file, "");
  }

  /** What was written with a password loads with it, and without one only when it held no secret. */
  lemma {:induction false} WrittenLoads(c: C.Cipher, v: J.Value, text: string)
    requires C.Correct(c) && text != ""
    ensures Loaded(c, Written(c, v, Given(text)), Given(text)) == Ok(v)
    ensures Loaded(c, Written(c, v, Given(text)), NotGiven).Ok? <==> C.SecretCount(v, "") == 0
  {
    hide C.Encrypt, C.Decrypt, C.EncryptedCount, C.SecretCount;
    C.DecryptUndoesEncrypt(c, v, text, "");
    C.EncryptMarksSecrets(c, v, text, "");
  }

  // ----- the saved preset -----

  const CACHE := "customPresetCache"

  /** The generated preset: its name, its assembly, the custom preset it was resolved from, and other fields. */
  function PresetFile(preset: string, assembly: string, custom: J.Value, others: map<string, J.Value>): J.Value {
    J.Obj(others["preset" := J.Str(preset)]["assembly" := J.Str(assembly)][CACHE := custom])
  }

  function ValueField(v: J.Value, name: string): J.Value {
    if v.Obj? && name in v.fields then v.fields[name] else J.Undefined
  }

  function ValueText(v: J.Value, name: string): string {
    if ValueField(v, name).Str? then ValueField(v, name).s else ""
  }

  /** What an upgrade reads from a loaded preset. */
  ghost function OldPreset(file: J.Value): Generated {
    Generated(ValueText(file, "preset"), ValueText(file, "assembly"), Grow(file), Grow(ValueField(file, CACHE)))
  }

  lemma ShortNamesAreNoSecrets(name: string)
    requires |name| < 10
    ensures !C.IsEncryptableName(name)
  {
    assert |C.ENCRYPTABLE_KEYS[0]| == 10 && |C.ENCRYPTABLE_KEYS[1]| == 16 && |C.ENCRYPTABLE_KEYS[2]| == 18;
  }

  /** Saved, written, loaded: the names come back, and the custom preset without its private keys. */
  lemma {:induction false} SavedCacheIsStripped(c: C.Cipher, password: Password, preset: string, assembly: string,
                                                custom: J.Value, others: map<string, J.Value>)
    requires C.Correct(c) && custom.Obj?
    ensures var file := Written(c, C.RemovePrivateKeys(PresetFile(preset, assembly, custom, others), []), password);
      var loaded := Loaded(c, file, password);
      && loaded.Ok?
      && OldPreset(loaded.value).preset == preset && OldPreset(loaded.value).assembly == assembly
      && OldPreset(loaded.value).cache == Grow(C.RemovePrivateKeys(custom, []))
  {
    hide C.IsEncryptableName, Grow;
    var v := PresetFile(preset, assembly, custom, others);
    SavedLoads(c, v, password);
    C.StripObj(v.fields, []);
    ShortNamesAreNoSecrets("preset");
    ShortNamesAreNoSecrets("assembly");
    assert |CACHE| == 17 && "preset" != CACHE && "assembly" != CACHE && "preset" != "assembly" by {
      assert |"preset"| == 6 && |"assembly"| == 8;
    }
    assert v.fields["preset"] == J.Str(preset) && v.fields["assembly"] == J.Str(assembly) && v.fields[CACHE] == custom;
    var saved := C.RemovePrivateKeys(v, []);
    C.StripKeepsKind(J.Str(preset), []);
    assert saved.fields["preset"] == J.Str(preset) && saved.fields["assembly"] == J.Str(assembly);
    assert C.Under([], CACHE) == [];
    assert saved.fields[CACHE] == C.RemovePrivateKeys(custom, []);
  }

  // ----- upgrading -----

  /** An upgrade from a preset with these names and this custom preset. */
  ghost function Resolved(bundle: Bundle, preset: string, assembly: string, cache: Tree): Result<Generated>
    requires IsSoundRequest(bundle, NO_REQUEST)
  {
    CreatePresetData(bundle, NO_REQUEST, Some(Generated(preset, assembly, Tree.Undefined, cache)))
  }

  /** An upgrade reads no more than that. */
  lemma UpgradeReads(bundle: Bundle, g: Generated)
    requires IsSoundRequest(bundle, NO_REQUEST)
    ensures CreatePresetData(bundle, NO_REQUEST, Some(g)) == Resolved(bundle, g.preset, g.assembly, g.cache)
  {
    hide MergePresets, FirstGiven;
    var h := Generated(g.preset, g.assembly, Tree.Undefined, g.cache);
    assert ResolvePreset(NO_REQUEST, Some(g)) == ResolvePreset(NO_REQUEST, Some(h));
    assert ResolveAssembly(bundle, NO_REQUEST, Some(g), ResolvePreset(NO_REQUEST, Some(g)))
        == ResolveAssembly(bundle, NO_REQUEST, Some(h), ResolvePreset(NO_REQUEST, Some(g)));
    assert ResolveCustom(NO_REQUEST, Some(g)) == ResolveCustom(NO_REQUEST, Some(h));
  }

  /** The upgrade from a saved preset, whatever its password and its other fields, is the upgrade with the custom
      preset stripped of its private keys. */
  lemma {:induction false} UpgradeFromFile(c: C.Cipher, password: Password, preset: string, assembly: string,
                                           custom: J.Value, others: map<string, J.Value>, bundle: Bundle)
    requires C.Correct(c) && custom.Obj? && IsSoundRequest(bundle, NO_REQUEST)
    ensures var file := Written(c, C.RemovePrivateKeys(PresetFile(preset, assembly, custom, others), []), password);
      && Loaded(c, file, password).Ok?
      && CreatePresetData(bundle, NO_REQUEST, Some(OldPreset(Loaded(c, file, password).value)))
         == Resolved(bundle, preset, assembly, Grow(C.RemovePrivateKeys(custom, [])))
  {
    hide C.RemovePrivateKeys, Written, Loaded, OldPreset, PresetFile, Grow, CreatePresetData, Resolved;
    SavedCacheIsStripped(c, password, preset, assembly, custom, others);
    var file := Written(c, C.RemovePrivateKeys(PresetFile(preset, assembly, custom, others), []), password);
    UpgradeReads(bundle, OldPreset(Loaded(c, file, password).value));
  }

  /** The upgrade with the one custom preset gives the same merged preset as with the other. */
  ghost predicate Reproduces(bundle: Bundle, preset: string, assembly: string, before: Tree, after: Tree)
    requires IsSoundRequest(bundle, NO_REQUEST)
  {
    var r, s := Resolved(bundle, preset, assembly, before), Resolved(bundle, preset, assembly, after);
    r.Ok? ==> s.Ok? && s.value.merged == r.value.merged
  }

  const NETWORK_TYPE := "networkType"

  /** Preset files with nothing in them but a network type. */
  ghost function BareBundle(): Bundle {
    Bundle(OneField(NETWORK_TYPE, Tree.Num(1)), preset => Ok(Node(false, map[])),
           (preset, assembly) => Ok(Node(false, map[])), preset => "")
  }

  lemma NetworkTypeIsOrdinary()
    ensures !LastWins(NETWORK_TYPE)
  {
    assert |LAST_WINS[0]| == 9 && |LAST_WINS[1]| == 17 && |LAST_WINS[2]| == 10 && |NETWORK_TYPE| == 11;
  }

  function BarePresets(cache: Tree): seq<Tree> {
    [OneField(NETWORK_TYPE, Tree.Num(1)), Node(false, map[]), Node(false, map[]), cache]
  }

  /** Merged onto these files, a custom preset keeps every field; only the network type is filled in. */
  lemma BareMerge(cache: Tree, k: string)
    requires IsObject(cache)
    ensures ArePresets(BarePresets(cache))
    ensures var merged := MergePresets(BarePresets(cache));
      && IsObject(merged)
      && Field(merged, k) == Merge(Field(OneField(NETWORK_TYPE, Tree.Num(1)), k), Field(cache, k))
      && (k in merged.fields <==> k == NETWORK_TYPE || k in cache.fields)
  {
    hide Merge, IsEmpty, LastWins;
    var first, none := OneField(NETWORK_TYPE, Tree.Num(1)), Node(false, map[]);
    var x := Field(first, k);
    MergeOneMore([], first, k);
    MergeOneMore([first], none, k);
    MergeOneMore([first, none], none, k);
    MergeOneMore([first, none, none], cache, k);
    assert [] + [first] == [first] && [first] + [none] == [first, none];
    assert [first, none] + [none] == [first, none, none] && [first, none, none] + [cache] == BarePresets(cache);
    MergeOfUndefined(x);
    MergeOfUndefined(Field(cache, k));
    FieldOfNames(cache, k);
    if k != NETWORK_TYPE {
      BareWinner(cache, k);
    }
    MergedField(BarePresets(cache), k);
    NetworkTypeIsOrdinary();
  }

  lemma BareWinner(cache: Tree, k: string)
    requires k != NETWORK_TYPE
    ensures LastNonEmpty(BarePresets(cache), k) == if IsEmpty(Field(cache, k)) then None else Some(Field(cache, k))
  {
    var first, none := OneField(NETWORK_TYPE, Tree.Num(1)), Node(false, map[]);
    LastNonEmptyConcat([first, none, none], [cache], k);
    LastNonEmptyConcat([first], [none, none], k);
    LastNonEmptyOfOne(cache, k);
    LastNonEmptyOfOne(first, k);
    LastNonEmptyOfTwo(none, none, k);
    assert [first, none, none] + [cache] == BarePresets(cache) && [first] + [none, none] == [first, none, none];
  }

  /** What an upgrade without a request makes of presets that can be found. */
  lemma UpgradeMerges(bundle: Bundle, preset: string, assembly: string, cache: Tree)
    requires IsSoundRequest(bundle, NO_REQUEST) && preset != "" && assembly != "" && IsObject(cache)
    requires bundle.network(preset).Ok? && bundle.assembly(preset, assembly).Ok?
    ensures var presets := [bundle.shared, bundle.network(preset).value, bundle.assembly(preset, assembly).value,
                            cache];
      && ArePresets(presets)
      && Resolved(bundle, preset, assembly, cache)
         == if IsFalsy(Field(MergePresets(presets), NETWORK_TYPE)) then Err("Network Type could not be resolved")
            else Ok(Generated(preset, assembly, MergePresets(presets), cache))
  {
    hide MergePresets;
    var g := Generated(preset, assembly, Tree.Undefined, cache);
    assert IsSoundBundle(bundle, preset, assembly);
    NothingProvided(g);
    GivenBefore(preset, []);
    GivenBefore(assembly, [bundle.defaultAssembly(preset)]);
    assert Text(NO_REQUEST.customObject, "assembly") == "" && Text(NO_REQUEST.customFile, "assembly") == "";
    assert ["", "", "", assembly] + [bundle.defaultAssembly(preset)]
        == ["", "", "", assembly, bundle.defaultAssembly(preset)];
    assert ResolvePreset(NO_REQUEST, Some(g)) == preset;
    assert ResolveAssembly(bundle, NO_REQUEST, Some(g), preset) == assembly;
  }

  lemma BareIsSound()
    ensures IsSoundRequest(BareBundle(), NO_REQUEST)
  {
  }

  /** A custom preset that leaves the network type open, or gives one. */
  predicate TypeIsOpen(cache: Tree) {
    Field(cache, NETWORK_TYPE).Undefined? || !IsFalsy(Field(cache, NETWORK_TYPE))
  }

  lemma BareUpgrade(preset: string, assembly: string, cache: Tree)
    requires preset != "" && assembly != "" && IsObject(cache) && TypeIsOpen(cache)
    ensures IsSoundRequest(BareBundle(), NO_REQUEST) && ArePresets(BarePresets(cache))
    ensures Resolved(BareBundle(), preset, assembly, cache)
         == Ok(Generated(preset, assembly, MergePresets(BarePresets(cache)), cache))
  {
    hide MergePresets, Resolved, IsSoundRequest;
    BareIsSound();
    BareMerge(cache, NETWORK_TYPE);
    UpgradeMerges(BareBundle(), preset, assembly, cache);
  }

  /** Any configuration that was resolved leaves the network type open or gives one. */
  lemma ResolvedTypeIsOpen(bundle: Bundle, r: Request, before: Option<Generated>)
    requires IsSoundRequest(bundle, r) && CreatePresetData(bundle, r, before).Ok?
    ensures var g := CreatePresetData(bundle, r, before).value;
      g.preset != "" && g.assembly != "" && IsObject(g.cache) && TypeIsOpen(g.cache)
  {
    hide MergePresets, IsEmpty;
    var g := CreatePresetData(bundle, r, before).value;
    assert IsSoundBundle(bundle, g.preset, g.assembly);
    MergedIsObject([r.customFile, r.customObject]);
    var outer := [bundle.shared, bundle.network(g.preset).value, bundle.assembly(g.preset, g.assembly).value];
    assert outer + [g.cache] == [outer[0], outer[1], outer[2], g.cache];
    NetworkTypeIsOrdinary();
    MergedField(outer + [g.cache], NETWORK_TYPE);
    MergeOneMore(outer, g.cache, NETWORK_TYPE);
  }

  lemma GrowField(fields: map<string, J.Value>, k: string)
    ensures var r := Grow(J.Obj(fields));
      && IsObject(r) && (k in r.fields <==> k in fields)
      && Field(r, k) == if k in fields then Grow(fields[k]) else Tree.Undefined
  {
  }

  lemma StrippedField(fields: map<string, J.Value>, k: string)
    ensures C.RemovePrivateKeys(J.Obj(fields), []).Obj?
    ensures var left := C.RemovePrivateKeys(J.Obj(fields), []).fields;
      && (k in left <==> k in fields && !C.IsEncryptableKeyField(fields[k], k))
      && (k in left ==> left[k] == C.RemovePrivateKeys(fields[k], []))
  {
    hide C.IsEncryptableName;
    C.StripObj(fields, []);
  }

  lemma TypeIsNoSecret()
    ensures !C.IsEncryptableName(NETWORK_TYPE)
  {
    assert |C.ENCRYPTABLE_KEYS[0]| == 10 && |C.ENCRYPTABLE_KEYS[1]| == 16 && |C.ENCRYPTABLE_KEYS[2]| == 18;
    var low, key := J.Lower(NETWORK_TYPE), J.Lower(C.ENCRYPTABLE_KEYS[0]);
    assert low[|low| - 10..][9] == low[10] == 'e' && key[9] == 'y';
  }

  lemma StrippedKeepsOpen(v: J.Value)
    ensures Grow(C.RemovePrivateKeys(v, [])).Undefined? <==> Grow(v).Undefined?
    ensures IsFalsy(Grow(C.RemovePrivateKeys(v, []))) <==> IsFalsy(Grow(v))
  {
  }

  lemma StrippedTypeIsOpen(custom: J.Value)
    requires custom.Obj? && TypeIsOpen(Grow(custom))
    ensures IsObject(Grow(C.RemovePrivateKeys(custom, []))) && TypeIsOpen(Grow(C.RemovePrivateKeys(custom, [])))
    ensures C.RemovePrivateKeys(custom, []).Obj?
  {
    hide Grow, C.RemovePrivateKeys, C.IsEncryptableName;
    TypeIsNoSecret();
    StrippedField(custom.fields, NETWORK_TYPE);
    GrowField(custom.fields, NETWORK_TYPE);
    GrowField(C.RemovePrivateKeys(custom, []).fields, NETWORK_TYPE);
    if NETWORK_TYPE in custom.fields {
      StrippedKeepsOpen(custom.fields[NETWORK_TYPE]);
    }
  }

  lemma OverNumber(v: Tree)
    ensures Merge(Tree.Num(1), v) == if v.Undefined? then Tree.Num(1) else v
  {
  }

  /** What one field of the two bare merges tells about the custom preset and the stripped one. */
  lemma BareFieldTells(custom: J.Value, k: string)
    requires custom.Obj? && TypeIsOpen(Grow(custom))
    requires C.RemovePrivateKeys(custom, []).Obj?
    requires MergePresets(BarePresets(Grow(custom))) == MergePresets(BarePresets(Grow(C.RemovePrivateKeys(custom, []))))
    ensures var left := C.RemovePrivateKeys(custom, []).fields;
      (k in left <==> k in custom.fields) && (k in left ==> left[k] == custom.fields[k])
  {
    hide MergePresets, Merge, Grow, C.RemovePrivateKeys, C.IsEncryptableName, BarePresets;
    var stripped := C.RemovePrivateKeys(custom, []);
    StrippedTypeIsOpen(custom);
    GrowField(custom.fields, k);
    GrowField(stripped.fields, k);
    StrippedField(custom.fields, k);
    BareMerge(Grow(custom), k);
    BareMerge(Grow(stripped), k);
    MergeOfUndefined(Field(Grow(custom), k));
    MergeOfUndefined(Field(Grow(stripped), k));
    OverNumber(Field(Grow(custom), k));
    OverNumber(Field(Grow(stripped), k));
    if k == NETWORK_TYPE {
      TypeIsNoSecret();
    }
    if k in stripped.fields {
      StrippedKeepsOpen(custom.fields[k]);
      GrowIsInjective(custom.fields[k], stripped.fields[k]);
    }
  }

  lemma SameMergeIsSecretFree(custom: J.Value)
    requires custom.Obj? && TypeIsOpen(Grow(custom))
    requires IsObject(Grow(C.RemovePrivateKeys(custom, [])))
    requires MergePresets(BarePresets(Grow(custom))) == MergePresets(BarePresets(Grow(C.RemovePrivateKeys(custom, []))))
    ensures S.IsSecretFree(custom)
  {
    hide MergePresets, Grow, C.IsEncryptableName, BarePresets, TypeIsOpen;
    var stripped := C.RemovePrivateKeys(custom, []);
    forall k
      ensures (k in stripped.fields <==> k in custom.fields)
          && (k in stripped.fields ==> stripped.fields[k] == custom.fields[k])
    {
      BareFieldTells(custom, k);
    }
    assert stripped.fields == custom.fields;
    S.StripsSecrets(custom, []);
  }

  /** Saving a configuration and upgrading from the file reproduces its merged preset, with whatever preset files
      come with the program, exactly when the custom preset holds no text under an encryptable name. */
  lemma {:induction false} SavedUpgradeReproducesExactlyWhen(bundle: Bundle, r: Request, before: Option<Generated>,
                                                             custom: J.Value)
    requires IsSoundRequest(bundle, r) && CreatePresetData(bundle, r, before).Ok?
    requires custom.Obj? && CreatePresetData(bundle, r, before).value.cache == Grow(custom)
    ensures var g := CreatePresetData(bundle, r, before).value;
      (forall later | IsSoundRequest(later, NO_REQUEST) ::
         Reproduces(later, g.preset, g.assembly, g.cache, Grow(C.RemovePrivateKeys(custom, []))))
      <==> S.IsSecretFree(custom)
  {
    hide CreatePresetData, MergePresets, Grow, C.RemovePrivateKeys, S.IsSecretFree, TypeIsOpen, IsSoundRequest,
        Resolved;
    var g := CreatePresetData(bundle, r, before).value;
    var stripped := C.RemovePrivateKeys(custom, []);
    ResolvedTypeIsOpen(bundle, r, before);
    StrippedTypeIsOpen(custom);
    if S.IsSecretFree(custom) {
      S.NothingToStrip(custom, []);
    } else {
      BareIsSound();
      BareUpgrade(g.preset, g.assembly, g.cache);
      BareUpgrade(g.preset, g.assembly, Grow(stripped));
      if Reproduces(BareBundle(), g.preset, g.assembly, g.cache, Grow(stripped)) {
        SameMergeIsSecretFree(custom);
      }
    }
  }

  /** For instance, a custom preset with one private key: the key is missing from the merged preset of the
      upgrade. */
  lemma {:induction false} LostKeyExample()
    ensures IsSoundRequest(BareBundle(), NO_REQUEST)
    ensures var custom := J.Obj(map["privateKey" := J.Str("secret")]);
      !Reproduces(BareBundle(), "testnet", "dual", Grow(custom), Grow(C.RemovePrivateKeys(custom, [])))
  {
    hide MergePresets, Grow, C.RemovePrivateKeys, C.IsEncryptableName, IsSoundRequest, Resolved;
    var custom := J.Obj(map["privateKey" := J.Str("secret")]);
    S.KeysAreEncryptable(0);
    assert "privateKey" in custom.fields && !S.IsSecretFree(custom);
    assert NETWORK_TYPE !in custom.fields by {
      assert |NETWORK_TYPE| == 11 && |"privateKey"| == 10;
    }
    GrowField(custom.fields, NETWORK_TYPE);
    StrippedTypeIsOpen(custom);
    BareIsSound();
    BareUpgrade("testnet", "dual", Grow(custom));
    BareUpgrade("testnet", "dual", Grow(C.RemovePrivateKeys(custom, [])));
    if MergePresets(BarePresets(Grow(custom))) == MergePresets(BarePresets(Grow(C.RemovePrivateKeys(custom, [])))) {
      SameMergeIsSecretFree(custom);
    }
  }

  /** The custom preset after a number of saves. */
  function SavedTimes(custom: J.Value, times: nat): J.Value {
    if times == 0 then custom else C.RemovePrivateKeys(SavedTimes(custom, times - 1), [])
  }

  /** From the second upgrade on nothing changes any more: every further save and upgrade gives what the first
      saved upgrade gave. */
  lemma {:induction false} LaterUpgradesReproduce(bundle: Bundle, preset: string, assembly: string, custom: J.Value,
                                                  times: nat)
    requires IsSoundRequest(bundle, NO_REQUEST) && times >= 1
    ensures Resolved(bundle, preset, assembly, Grow(SavedTimes(custom, times)))
         == Resolved(bundle, preset, assembly, Grow(C.RemovePrivateKeys(custom, [])))
  {
    hide C.RemovePrivateKeys, Grow, Resolved;
    SavedAgain(custom, times);
  }

  lemma {:induction false} SavedAgain(custom: J.Value, times: nat)
    requires times >= 1
    ensures SavedTimes(custom, times) == C.RemovePrivateKeys(custom, [])
  {
    hide C.RemovePrivateKeys;
    if times > 1 {
      SavedAgain(custom, times - 1);
      C.StripIsIdempotent(custom, []);
    }
  }
}
