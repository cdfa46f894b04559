/** Which texts of a tree are secrets, and what becomes of each of them, said letter by letter and path by path. */
module SecretLaws {
  import opened Basics
  import opened JsonValues
  import opened CryptoUtils
  import opened StripLists
  import opened VotingKeys

  // ----- names, without regard to case -----

  predicate StandsLike(s: string, part: string, at: nat) {
    at + |part| <= |s| && forall j | 0 <= j < |part| :: SameLetter(s[at + j], part[j])
  }

  predicate EndsLike(s: string, end: string) {
    |end| <= |s| && StandsLike(s, end, |s| - |end|)
  }

  predicate HoldsLike(s: string, part: string) {
    exists at: nat | at <= |s| :: StandsLike(s, part, at)
  }

  lemma LettersLowered(c: char, d: char)
    ensures LowerChar(c) == LowerChar(d) <==> SameLetter(c, d)
  {
  }

  lemma LowerStands(s: string, part: string, at: nat)
    ensures StandsAt(Lower(s), Lower(part), at) <==> StandsLike(s, part, at)
  {
    if at + |part| <= |s| {
      var there := Lower(s)[at..at + |part|];
      forall j | 0 <= j < |part|
        ensures there[j] == Lower(part)[j] <==> SameLetter(s[at + j], part[j])
      {
        LettersLowered(s[at + j], part[j]);
      }
      assert |there| == |Lower(part)|;
      if StandsLike(s, part, at) {
        assert there == Lower(part);
      }
    }
  }

  lemma LowerEnds(s: string, end: string)
    ensures EndsWith(Lower(s), Lower(end)) <==> EndsLike(s, end)
  {
    if |end| <= |s| {
      LowerStands(s, end, |s| - |end|);
      assert Lower(s)[|s| - |end|..] == Lower(s)[|s| - |end|..|s| - |end| + |end|];
    }
  }

  lemma LowerContains(s: string, part: string)
    ensures Contains(Lower(s), Lower(part)) <==> HoldsLike(s, part)
  {
    hide StandsAt, StandsLike, SameLetter;
    forall at: nat
      ensures StandsAt(Lower(s), Lower(part), at) <==> StandsLike(s, part, at)
    {
      LowerStands(s, part, at);
    }
  }

  /** The fields that are encrypted: their names end, in any case, in one of three words. */
  lemma {:induction false} EncryptableNames(name: string)
    ensures IsEncryptableName(name)
        <==> EndsLike(name, "privateKey") || EndsLike(name, "restSSLKeyBase64") || EndsLike(name, "privateFileContent")
  {
    hide EndsLike, Lower, EndsWith;
    forall i | 0 <= i < 3
      ensures EndsWith(Lower(name), Lower(ENCRYPTABLE_KEYS[i])) <==> EndsLike(name, ENCRYPTABLE_KEYS[i])
    {
      LowerEnds(name, ENCRYPTABLE_KEYS[i]);
    }
    assert ENCRYPTABLE_KEYS[0] == "privateKey" && ENCRYPTABLE_KEYS[1] == "restSSLKeyBase64"
        && ENCRYPTABLE_KEYS[2] == "privateFileContent";
    EndsSomewhere(name, "privateKey");
    EndsSomewhere(name, "restSSLKeyBase64");
    EndsSomewhere(name, "privateFileContent");
  }

  lemma EndsSomewhere(name: string, end: string)
    ensures end != "" && EndsLike(name, end) ==> name != ""
  {
  }

  // ----- secrets, by their paths -----

  /** The name of the field a path leads to; `name` for the empty path, and none for an array element. */
  function FieldName(path: seq<Step>, name: string): string {
    if |path| == 0 then name
    else
      match path[|path| - 1]
      case Name(k) => k
      case Index(_) => ""
  }

  predicate IsSecretField(path: seq<Step>, name: string, leaf: Value) {
    var field := FieldName(path, name);
    && leaf.Str?
    && (EndsLike(field, "privateKey") || EndsLike(field, "restSSLKeyBase64") || EndsLike(field, "privateFileContent"))
  }

  lemma SecretFieldIs(path: seq<Step>, name: string, leaf: Value)
    ensures IsSecretField(path, name, leaf) <==> IsEncryptableKeyField(leaf, FieldName(path, name))
    ensures IsSecretField(path, "", leaf) <==> IsSecretAt(path, leaf)
  {
    hide IsEncryptableName;
    EncryptableNames(FieldName(path, name));
    EncryptableNames(FieldName(path, ""));
    EncryptableNames("");
  }

  lemma FieldNameInside(path: seq<Step>, name: string)
    requires |path| > 0
    ensures FieldName(path, name) == FieldName(path[1..], match path[0] case Name(k) => k case Index(_) => "")
  {
  }

  /** Some field on the path has the word in its name, in any case. */
  predicate OnPath(path: seq<Step>, word: string) {
    exists i | 0 <= i < |path| :: path[i].Name? && HoldsLike(path[i].name, word)
  }

  /** Which leaves each security mode takes out: the secrets, by all modes those of voting keys, by the prompting modes
      also those of main accounts, by the next also those of transport accounts, and by the last all. */
  lemma {:induction false} SecretsGone(v: Value, mode: SecurityMode, path: seq<Step>, leaf: Value)
    requires IsLeaf(leaf)
    ensures HasAt(RemoveAccordingToSecurityMode(v, mode), path, leaf)
        <==> && HasAt(v, path, leaf)
             && !(IsSecretField(path, "", leaf)
                  && match mode
                     case ENCRYPT => OnPath(path, "voting")
                     case PROMPT_MAIN => OnPath(path, "voting") || OnPath(path, "main")
                     case PROMPT_MAIN_TRANSPORT =>
                       OnPath(path, "voting") || OnPath(path, "main") || OnPath(path, "transport")
                     case PROMPT_ALL => true)
  {
    hide IsSecretField, IsSecretAt, HasAt, IsBlacklisted, RemovePrivateKeys, HoldsLike;
    var names := RemovedNames(mode);
    StripRemovesExactly(v, names, path, leaf);
    SecretFieldIs(path, "", leaf);
    forall i | 0 <= i < |path| && path[i].Name?
      ensures mode == ENCRYPT ==> (IsBlacklisted(names, path[i].name) <==> HoldsLike(path[i].name, "voting"))
      ensures mode == PROMPT_MAIN ==>
        (IsBlacklisted(names, path[i].name)
         <==> HoldsLike(path[i].name, "voting") || HoldsLike(path[i].name, "main"))
      ensures mode == PROMPT_MAIN_TRANSPORT ==>
        (IsBlacklisted(names, path[i].name)
         <==> HoldsLike(path[i].name, "voting") || HoldsLike(path[i].name, "main")
              || HoldsLike(path[i].name, "transport"))
    {
      ModeLists(mode, path[i].name);
    }
  }

  lemma ModeLists(mode: SecurityMode, name: string)
    ensures var listed := IsBlacklisted(RemovedNames(mode), name);
      match mode
      case ENCRYPT => listed <==> HoldsLike(name, "voting")
      case PROMPT_MAIN => listed <==> HoldsLike(name, "voting") || HoldsLike(name, "main")
      case PROMPT_MAIN_TRANSPORT =>
        listed <==> HoldsLike(name, "voting") || HoldsLike(name, "main") || HoldsLike(name, "transport")
      case PROMPT_ALL => listed
  {
    hide HoldsLike, Contains, IsBlacklisted, BeforeEmpty;
    var names := RemovedNames(mode);
    if mode == PROMPT_ALL {
      EmptyListsAll(name);
    } else {
      BlacklistedBeforeEmpty(names, name);
      NoEmptyToCut(names);
      forall i | 0 <= i < |names|
        ensures Contains(Lower(name), Lower(names[i])) <==> HoldsLike(name, names[i])
      {
        LowerContains(name, names[i]);
      }
      assert names[0] in names && names[|names| - 1] in names;
      assert mode == PROMPT_MAIN_TRANSPORT ==> names[1] == "transport";
    }
  }

  // ----- encrypting and decrypting, leaf by leaf -----

  /** Every secret that is not empty becomes the marker and its encryption with the password given; every other
      leaf stays. */
  lemma {:induction false} EncryptsExactly(c: Cipher, v: Value, password: string, name: string, path: seq<Step>,
                                           leaf: Value)
    requires IsLeaf(leaf) && HasAt(v, path, leaf)
    ensures HasAt(Encrypt(c, v, password, name), path,
                  if IsSecretField(path, name, leaf)
                      && leaf.s != "" then Str("ENCRYPTED:" + c.encrypt(leaf.s, password))
                  else leaf)
    decreases |path|
  {
    hide IsSecretField, IsEncryptableName;
    SecretFieldIs(path, name, leaf);
    if |path| != 0 {
      FieldNameInside(path, name);
      match path[0]
      case Index(i) =>
        SecretFieldIs(path[1..], "", leaf);
        EncryptsExactly(c, v.items[i], password, "", path[1..], leaf);
      case Name(k) =>
        SecretFieldIs(path[1..], k, leaf);
        EncryptsExactly(c, v.fields[k], password, k, path[1..], leaf);
    }
  }

  predicate IsMarked(path: seq<Step>, name: string, leaf: Value) {
    IsSecretField(path, name, leaf) && "ENCRYPTED:" <= leaf.s
  }

  /** The text of a marked secret; it opens when it decrypts to a text that is not empty. */
  function Opened(c: Cipher, leaf: Value, password: string): Option<string>
    requires leaf.Str? && "ENCRYPTED:" <= leaf.s
  {
    c.decrypt(leaf.s[10..], password)
  }

  predicate Opens(c: Cipher, leaf: Value, password: string)
    requires leaf.Str? && "ENCRYPTED:" <= leaf.s
  {
    Opened(c, leaf, password).Some? && Opened(c, leaf, password).value != ""
  }

  ghost predicate AllOpen(c: Cipher, v: Value, password: string, name: string) {
    forall path: seq<Step>, leaf: Value | IsLeaf(leaf) && HasAt(v, path, leaf) ::
      IsMarked(path, name, leaf) ==> Opens(c, leaf, password)
  }

  /** Decryption succeeds exactly when every marked secret, wherever it stands, opens with the password. */
  lemma {:induction false} DecryptsExactlyWhen(c: Cipher, v: Value, password: string, name: string)
    ensures Decrypt(c, v, password, name).Ok? <==> AllOpen(c, v, password, name)
  {
    hide AllOpen, Opens;
    match v
    case Arr(items) =>
      forall i | 0 <= i < |items|
        ensures Decrypt(c, items[i], password, "").Ok? <==> AllOpen(c, items[i], password, "")
      {
        DecryptsExactlyWhen(c, items[i], password, "");
      }
      AllOpenInArray(c, items, password, name);
    case Obj(fields) =>
      forall k | k in fields
        ensures Decrypt(c, fields[k], password, k).Ok? <==> AllOpen(c, fields[k], password, k)
      {
        DecryptsExactlyWhen(c, fields[k], password, k);
      }
      AllOpenInObject(c, fields, password, name);
    case _ => LeafOpens(c, v, password, name);
  }

  lemma AllOpenInArray(c: Cipher, items: seq<Value>, password: string, name: string)
    ensures AllOpen(c, Arr(items), password, name)
        <==> forall i | 0 <= i < |items| :: AllOpen(c, items[i], password, "")
  {
    hide IsSecretField, Opens, FieldName, IsLeaf;
    forall i, path: seq<Step>, leaf | 0 <= i < |items| && HasAt(items[i], path, leaf)
      ensures HasAt(Arr(items), [Index(i)] + path, leaf)
      ensures IsMarked(path, "", leaf) <==> IsMarked([Index(i)] + path, name, leaf)
    {
      MarkedInside([Index(i)] + path, name, leaf);
      assert ([Index(i)] + path)[1..] == path;
    }
    forall path: seq<Step>, leaf | IsLeaf(leaf) && HasAt(Arr(items), path, leaf)
      ensures |path| > 0 && path[0].Index? && path[0].i < |items| && HasAt(items[path[0].i], path[1..], leaf)
      ensures IsMarked(path, name, leaf) <==> IsMarked(path[1..], "", leaf)
    {
      NoLeaf(Arr(items));
      MarkedInside(path, name, leaf);
    }
  }

  lemma AllOpenInObject(c: Cipher, fields: map<string, Value>, password: string, name: string)
    ensures AllOpen(c, Obj(fields), password, name) <==> forall k | k in fields :: AllOpen(c, fields[k], password, k)
  {
    hide IsSecretField, Opens, FieldName, IsLeaf;
    forall k, path: seq<Step>, leaf | k in fields && HasAt(fields[k], path, leaf)
      ensures HasAt(Obj(fields), [Name(k)] + path, leaf)
      ensures IsMarked(path, k, leaf) <==> IsMarked([Name(k)] + path, name, leaf)
    {
      MarkedInside([Name(k)] + path, name, leaf);
      assert ([Name(k)] + path)[1..] == path;
    }
    forall path: seq<Step>, leaf | IsLeaf(leaf) && HasAt(Obj(fields), path, leaf)
      ensures |path| > 0 && path[0].Name? && path[0].name in fields && HasAt(fields[path[0].name], path[1..], leaf)
      ensures IsMarked(path, name, leaf) <==> IsMarked(path[1..], path[0].name, leaf)
    {
      NoLeaf(Obj(fields));
      MarkedInside(path, name, leaf);
    }
  }

  lemma NoLeaf(v: Value)
    ensures IsLeaf(v) <==> !v.Arr? && !v.Obj?
  {
  }

  lemma MarkedInside(path: seq<Step>, name: string, leaf: Value)
    requires |path| > 0
    ensures IsMarked(path, name, leaf)
        <==> IsMarked(path[1..], match path[0] case Name(k) => k case Index(_) => "", leaf)
  {
    FieldNameInside(path, name);
  }

  lemma LeafOpens(c: Cipher, v: Value, password: string, name: string)
    requires IsLeaf(v)
    ensures Decrypt(c, v, password, name).Ok? <==> AllOpen(c, v, password, name)
  {
    hide IsEncryptableName, IsSecretField;
    SecretFieldIs([], name, v);
    assert HasAt(v, [], v);
    assert forall path, leaf | HasAt(v, path, leaf) :: path == [] && leaf == v;
  }

  /** When it succeeds, every marked secret has become what it opens to, and every other leaf stays. */
  lemma {:induction false} DecryptsTo(c: Cipher, v: Value, password: string, name: string, path: seq<Step>, leaf: Value)
    requires Decrypt(c, v, password, name).Ok? && IsLeaf(leaf) && HasAt(v, path, leaf)
    ensures IsMarked(path, name, leaf) ==> Opens(c, leaf, password)
    ensures HasAt(Decrypt(c, v, password, name).value, path,
                  if IsMarked(path, name, leaf) then Str(Opened(c, leaf, password).value) else leaf)
    decreases |path|
  {
    hide IsSecretField, IsEncryptableName;
    if |path| == 0 {
      SecretFieldIs(path, name, leaf);
    } else {
      MarkedInside(path, name, leaf);
      match path[0]
      case Index(i) => DecryptsTo(c, v.items[i], password, "", path[1..], leaf);
      case Name(k) => DecryptsTo(c, v.fields[k], password, k, path[1..], leaf);
    }
  }

  /** The encrypted count is zero exactly when no marked secret stands anywhere. */
  lemma {:induction false} CountIsZeroExactlyWhen(v: Value, name: string)
    ensures EncryptedCount(v, name) == 0
        <==> forall path: seq<Step>, leaf: Value | IsLeaf(leaf) && HasAt(v, path, leaf) :: !IsMarked(path, name, leaf)
  {
    var never := Cipher((s, password) => s, (s, password) => None);
    DecryptsExactlyWhen(never, v, "", name);
    if EncryptedCount(v, name) == 0 {
      NothingEncrypted(never, v, "", name);
    }
    if Decrypt(never, v, "", name).Ok? {
      NoneToOpen(never, v, "", name);
    }
    assert forall leaf: Value | leaf.Str? && "ENCRYPTED:" <= leaf.s :: !Opens(never, leaf, "");
  }

  lemma {:induction false} NoneToOpen(c: Cipher, v: Value, password: string, name: string)
    requires Decrypt(c, v, password, name).Ok? && forall s, p :: c.decrypt(s, p) == None
    ensures EncryptedCount(v, name) == 0
  {
    match v
    case Arr(items) =>
      var counts := seq(|items|, i requires 0 <= i < |items| => EncryptedCount(items[i], ""));
      forall i | 0 <= i < |items|
        ensures counts[i] == 0
      {
        NoneToOpen(c, items[i], password, "");
      }
      SumSeqZero(counts);
    case Obj(fields) =>
      var counts := map k | k in fields :: EncryptedCount(fields[k], k);
      forall k | k in fields
        ensures counts[k] == 0
      {
        NoneToOpen(c, fields[k], password, k);
      }
      SumMapZero(counts);
    case _ =>
  }
}
