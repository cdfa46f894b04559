/** Encrypting, decrypting and stripping the private keys of a configuration tree. */
module CryptoUtils {
  import opened Basics
  import opened JsonValues

  /** Encryption and decryption of a text with a password; decryption may fail. */
  datatype Cipher = Cipher(encrypt: (string, string) -> string, decrypt: (string, string) -> Option<string>)

  ghost predicate Correct(c: Cipher) {
    forall s, p :: c.decrypt(c.encrypt(s, p), p) == Some(s)
  }

  const ENCRYPT_PREFIX := "ENCRYPTED:"
  const ENCRYPTABLE_KEYS := ["privateKey", "restSSLKeyBase64", "privateFileContent"]

  predicate IsEncryptableName(name: string) {
    name != "" && exists i | 0 <= i < |ENCRYPTABLE_KEYS| :: EndsWith(Lower(name), Lower(ENCRYPTABLE_KEYS[i]))
  }

  /** A text under an encryptable name; the empty name stands for a value that is no field. */
  predicate IsEncryptableKeyField(v: Value, name: string) {
    v.Str? && IsEncryptableName(name)
  }

  function Encrypt(c: Cipher, v: Value, password: string, name: string): Value {
    if Falsy(v) then v
    else
      match v
      case Arr(items) => Arr(seq(|items|, i requires 0 <= i < |items| => Encrypt(c, items[i], password, "")))
      case Obj(fields) => Obj(map k | k in fields :: Encrypt(c, fields[k], password, k))
      case Str(s) => if IsEncryptableKeyField(v, name) then Str(ENCRYPT_PREFIX + c.encrypt(s, password)) else v
      case _ => v
  }

  function Decrypt(c: Cipher, v: Value, password: string, name: string): Result<Value> {
    if Falsy(v) then Ok(v)
    else
      match v
      case Arr(items) =>
        if forall i | 0 <= i < |items| :: Decrypt(c, items[i], password, "").Ok?
        then Ok(Arr(seq(|items|, i requires 0 <= i < |items| => Decrypt(c, items[i], password, "").value)))
        else Err("Value could not be decrypted!")
      case Obj(fields) =>
        if forall k | k in fields :: Decrypt(c, fields[k], password, k).Ok?
        then Ok(Obj(map k | k in fields :: Decrypt(c, fields[k], password, k).value))
        else Err("Value could not be decrypted!")
      case Str(s) =>
        if IsEncryptableKeyField(v, name) && ENCRYPT_PREFIX <= s then DecryptText(c, s[|ENCRYPT_PREFIX|..], password)
        else Ok(v)
      case _ => Ok(v)
  }

  function DecryptText(c: Cipher, encrypted: string, password: string): Result<Value> {
    match c.decrypt(encrypted, password)
    case None => Err("Value could not be decrypted!")
    case Some(s) => if s == "" then Err("Value could not be decrypted!") else Ok(Str(s))
  }

  ghost function EncryptedCount(v: Value, name: string): nat {
    if Falsy(v) then 0
    else
      match v
      case Arr(items) => SumSeq(seq(|items|, i requires 0 <= i < |items| => EncryptedCount(items[i], "")))
      case Obj(fields) => SumMap(map k | k in fields :: EncryptedCount(fields[k], k))
      case Str(s) => if IsEncryptableKeyField(v, name) && ENCRYPT_PREFIX <= s then 1 else 0
      case _ => 0
  }

  /** How many secrets a tree holds: non-empty texts in fields with an encryptable name. */
  ghost function SecretCount(v: Value, name: string): nat {
    match v
    case Arr(items) => SumSeq(seq(|items|, i requires 0 <= i < |items| => SecretCount(items[i], "")))
    case Obj(fields) => SumMap(map k | k in fields :: SecretCount(fields[k], k))
    case Str(s) => if s != "" && IsEncryptableName(name) then 1 else 0
    case _ => 0
  }

  // ----- encryption -----

  /** Decrypting what was encrypted gives every tree back, also where a plain text already started with
      the marker of encrypted ones. */
  lemma {:induction false} DecryptUndoesEncrypt(c: Cipher, v: Value, password: string, name: string)
    requires Correct(c)
    ensures Decrypt(c, Encrypt(c, v, password, name), password, name) == Ok(v)
  {
    match v
    case Arr(items) =>
      var e := Encrypt(c, v, password, name).items;
      forall i | 0 <= i < |items|
        ensures Decrypt(c, e[i], password, "") == Ok(items[i])
      {
        DecryptUndoesEncrypt(c, items[i], password, "");
      }
      assert Decrypt(c, Arr(e), password, name).value.items == items;
    case Obj(fields) =>
      var e := Encrypt(c, v, password, name).fields;
      forall k | k in fields
        ensures Decrypt(c, e[k], password, k) == Ok(fields[k])
      {
        DecryptUndoesEncrypt(c, fields[k], password, k);
      }
      assert Decrypt(c, Obj(e), password, name).value.fields == fields;
    case Str(s) =>
      if s != "" && IsEncryptableKeyField(v, name) {
        var marked := ENCRYPT_PREFIX + c.encrypt(s, password);
        assert marked[|ENCRYPT_PREFIX|..] == c.encrypt(s, password);
      }
    case _ =>
  }

  /** A tree without encrypted texts decrypts to itself. */
  lemma {:induction false} NothingEncrypted(c: Cipher, v: Value, password: string, name: string)
    requires EncryptedCount(v, name) == 0
    ensures Decrypt(c, v, password, name) == Ok(v)
  {
    match v
    case Arr(items) =>
      var counts := seq(|items|, i requires 0 <= i < |items| => EncryptedCount(items[i], ""));
      SumSeqZero(counts);
      forall i | 0 <= i < |items|
        ensures Decrypt(c, items[i], password, "") == Ok(items[i])
      {
        assert counts[i] == 0;
        NothingEncrypted(c, items[i], password, "");
      }
      assert Decrypt(c, v, password, name).value.items == items;
    case Obj(fields) =>
      var counts := map k | k in fields :: EncryptedCount(fields[k], k);
      SumMapZero(counts);
      forall k | k in fields
        ensures Decrypt(c, fields[k], password, k) == Ok(fields[k])
      {
        assert counts[k] == 0;
        NothingEncrypted(c, fields[k], password, k);
      }
      assert Decrypt(c, v, password, name).value.fields == fields;
    case _ =>
  }

  /** Encrypting marks exactly the secrets. */
  lemma {:induction false} EncryptMarksSecrets(c: Cipher, v: Value, password: string, name: string)
    ensures EncryptedCount(Encrypt(c, v, password, name), name) == SecretCount(v, name)
  {
    match v
    case Arr(items) =>
      var e := Encrypt(c, v, password, name).items;
      forall i | 0 <= i < |items|
        ensures EncryptedCount(e[i], "") == SecretCount(items[i], "")
      {
        EncryptMarksSecrets(c, items[i], password, "");
      }
      assert seq(|e|, i requires 0 <= i < |e| => EncryptedCount(e[i], ""))
          == seq(|items|, i requires 0 <= i < |items| => SecretCount(items[i], ""));
    case Obj(fields) =>
      var e := Encrypt(c, v, password, name).fields;
      forall k | k in fields
        ensures EncryptedCount(e[k], k) == SecretCount(fields[k], k)
      {
        EncryptMarksSecrets(c, fields[k], password, k);
      }
      assert (map k | k in e :: EncryptedCount(e[k], k)) == (map k | k in fields :: SecretCount(fields[k], k));
    case Str(s) =>
      if s != "" && IsEncryptableName(name) {
        assert ENCRYPT_PREFIX <= ENCRYPT_PREFIX + c.encrypt(s, password);
      }
    case _ =>
  }

  // ----- stripping private keys -----

  /** The first listed name that occurs in the field name, ignoring case. */
  function FindListed(names: seq<string>, name: string): Option<string> {
    if |names| == 0 then None
    else if Contains(Lower(name), Lower(names[0])) then Some(names[0])
    else FindListed(names[1..], name)
  }

  /** No list means every name; and an empty text that is found counts as not found, being falsy. */
  predicate IsBlacklisted(names: seq<string>, name: string) {
    names == [] || (FindListed(names, name).Some? && FindListed(names, name).value != "")
  }

  function Under(names: seq<string>, name: string): seq<string> {
    if IsBlacklisted(names, name) then [] else names
  }

  function RemovePrivateKeys(v: Value, names: seq<string>): Value {
    match v
    case Arr(items) => Arr(seq(|items|, i requires 0 <= i < |items| => RemovePrivateKeys(items[i], names)))
    case Obj(fields) =>
      Obj(map k | k in fields && Keeps(names, k, fields[k]) :: RemovePrivateKeys(fields[k], Under(names, k)))
    case _ => v
  }

  predicate Keeps(names: seq<string>, k: string, v: Value) {
    !IsBlacklisted(names, k) || !IsEncryptableKeyField(v, k)
  }

  datatype SecurityMode = ENCRYPT | PROMPT_MAIN | PROMPT_MAIN_TRANSPORT | PROMPT_ALL

  function RemovedNames(mode: SecurityMode): seq<string> {
    match mode
    case PROMPT_MAIN => ["main", "voting"]
    case PROMPT_MAIN_TRANSPORT => ["main", "transport", "voting"]
    case PROMPT_ALL => []
    case ENCRYPT => ["voting"]
  }

  function RemoveAccordingToSecurityMode(v: Value, mode: SecurityMode): Value {
    RemovePrivateKeys(v, RemovedNames(mode))
  }

  function Strictness(mode: SecurityMode): nat {
    match mode
    case ENCRYPT => 0
    case PROMPT_MAIN => 1
    case PROMPT_MAIN_TRANSPORT => 2
    case PROMPT_ALL => 3
  }

  lemma StripKeepsKind(v: Value, names: seq<string>)
    ensures RemovePrivateKeys(v, names).Str? <==> v.Str?
    ensures Falsy(RemovePrivateKeys(v, names)) <==> Falsy(v)
  {
  }

  /** `all` blacklists what `first` or `second` blacklists. */
  ghost predicate Joins(first: seq<string>, second: seq<string>, all: seq<string>) {
    forall name :: IsBlacklisted(all, name) <==> IsBlacklisted(first, name) || IsBlacklisted(second, name)
  }

  /** Removing with one list and then another is removing once with any list that joins them. */
  lemma {:induction false} StripJoins(v: Value, first: seq<string>, second: seq<string>, all: seq<string>)
    requires Joins(first, second, all)
    ensures RemovePrivateKeys(RemovePrivateKeys(v, first), second) == RemovePrivateKeys(v, all)
  {
    match v
    case Arr(items) =>
      var once := RemovePrivateKeys(v, first).items;
      forall i | 0 <= i < |items|
        ensures RemovePrivateKeys(once[i], second) == RemovePrivateKeys(items[i], all)
      {
        StripJoins(items[i], first, second, all);
      }
    case Obj(fields) =>
      forall k | k in fields
        ensures RemovePrivateKeys(RemovePrivateKeys(fields[k], Under(first, k)), Under(second, k))
             == RemovePrivateKeys(fields[k], Under(all, k))
      {
        JoinsUnder(first, second, all, k);
        StripJoins(fields[k], Under(first, k), Under(second, k), Under(all, k));
      }
      StripJoinsFields(fields, first, second, all);
    case _ =>
  }

  lemma JoinsUnder(first: seq<string>, second: seq<string>, all: seq<string>, k: string)
    requires Joins(first, second, all)
    ensures Joins(Under(first, k), Under(second, k), Under(all, k))
    ensures IsBlacklisted(all, k) <==> IsBlacklisted(first, k) || IsBlacklisted(second, k)
  {
  }

  lemma StripJoinsFields(fields: map<string, Value>, first: seq<string>, second: seq<string>, all: seq<string>)
    requires Joins(first, second, all)
    requires forall k | k in fields ::
      RemovePrivateKeys(RemovePrivateKeys(fields[k], Under(first, k)), Under(second, k))
          == RemovePrivateKeys(fields[k], Under(all, k))
    ensures RemovePrivateKeys(RemovePrivateKeys(Obj(fields), first), second) == RemovePrivateKeys(Obj(fields), all)
  {
    hide IsBlacklisted, IsEncryptableName, Under;
    var once := RemovePrivateKeys(Obj(fields), first).fields;
    var twice := RemovePrivateKeys(Obj(once), second).fields;
    var direct := RemovePrivateKeys(Obj(fields), all).fields;
    forall k | k in fields
      ensures k in twice <==> k in direct
    {
      StripKeepsKind(fields[k], Under(first, k));
      JoinsUnder(first, second, all, k);
    }
    assert forall k | k in direct :: twice[k] == direct[k];
    assert twice == direct;
  }

  lemma {:induction false} FindListedConcat(first: seq<string>, second: seq<string>, name: string)
    ensures FindListed(first + second, name)
         == if FindListed(first, name).Some? then FindListed(first, name) else FindListed(second, name)
    ensures FindListed(first, name).Some? ==> FindListed(first, name).value in first
  {
    if |first| == 0 {
      assert first + second == second;
    } else {
      assert (first + second)[1..] == first[1..] + second;
      FindListedConcat(first[1..], second, name);
    }
  }

  lemma {:induction false} StripIsIdempotent(v: Value, names: seq<string>)
    ensures RemovePrivateKeys(RemovePrivateKeys(v, names), names) == RemovePrivateKeys(v, names)
  {
    assert Joins(names, names, names);
    StripJoins(v, names, names, names);
  }

  lemma {:induction false} ListedInMore(names: seq<string>, more: seq<string>, name: string)
    requires "" !in more && (forall n | n in names :: n in more)
    ensures FindListed(names, name).Some? ==> FindListed(more, name).Some? && FindListed(more, name).value != ""
  {
    FindListedConcat(names, [], name);
    FindListedConcat(more, [], name);
    var found := FindListed(names, name);
    if found.Some? {
      FoundOccurs(names, name);
      OccursFound(more, found.value, name);
    }
  }

  lemma {:induction false} FoundOccurs(names: seq<string>, name: string)
    requires FindListed(names, name).Some?
    ensures FindListed(names, name).value in names && Contains(Lower(name), Lower(FindListed(names, name).value))
  {
    if !Contains(Lower(name), Lower(names[0])) {
      FoundOccurs(names[1..], name);
    }
  }

  lemma {:induction false} OccursFound(names: seq<string>, n: string, name: string)
    requires n in names && Contains(Lower(name), Lower(n))
    ensures FindListed(names, name).Some?
  {
    if !Contains(Lower(name), Lower(names[0])) {
      OccursFound(names[1..], n, name);
    }
  }

  /** The modes form a chain: applying one and then another is applying the stricter of the two. */
  lemma {:induction false} ModesFormAChain(v: Value, first: SecurityMode, second: SecurityMode)
    ensures RemoveAccordingToSecurityMode(RemoveAccordingToSecurityMode(v, first), second)
         == RemoveAccordingToSecurityMode(v, if Strictness(first) <= Strictness(second) then second else first)
  {
    var stricter := if Strictness(first) <= Strictness(second) then second else first;
    var a, b, c := RemovedNames(first), RemovedNames(second), RemovedNames(stricter);
    forall name
      ensures IsBlacklisted(c, name) <==> IsBlacklisted(a, name) || IsBlacklisted(b, name)
    {
      if stricter != PROMPT_ALL {
        ListedInMore(a, c, name);
        ListedInMore(b, c, name);
      }
    }
    StripJoins(v, a, b, c);
  }

  // ----- exactly what is stripped -----

  /** The leaf is the text of a field with an encryptable name. */
  predicate IsSecretAt(path: seq<Step>, leaf: Value) {
    |path| > 0 && path[|path| - 1].Name? && IsEncryptableKeyField(leaf, path[|path| - 1].name)
  }

  predicate ListedOn(names: seq<string>, path: seq<Step>) {
    names == [] || exists i | 0 <= i < |path| :: path[i].Name? && IsBlacklisted(names, path[i].name)
  }

  lemma ListedOnStep(names: seq<string>, path: seq<Step>)
    requires |path| > 0
    ensures ListedOn(names, path)
        <==> ListedOn(if path[0].Name? then Under(names, path[0].name) else names, path[1..])
  {
    hide FindListed;
    var first, rest := path[0], path[1..];
    assert path == [first] + rest;
    if first.Name? && IsBlacklisted(names, first.name) {
      assert path[0].Name? && IsBlacklisted(names, path[0].name);
    } else if names != [] {
      if ListedOn(names, path) {
        var i :| 0 <= i < |path| && path[i].Name? && IsBlacklisted(names, path[i].name);
        assert rest[i - 1] == path[i];
      }
      if ListedOn(names, rest) {
        var i :| 0 <= i < |rest| && rest[i].Name? && IsBlacklisted(names, rest[i].name);
        assert path[i + 1] == rest[i];
      }
    }
  }

  lemma StripKeepsLeaves(v: Value, names: seq<string>, leaf: Value)
    requires IsLeaf(leaf)
    ensures RemovePrivateKeys(v, names) == leaf <==> v == leaf
  {
  }

  lemma KeptOnPath(v: Value, names: seq<string>, k: string, path: seq<Step>, leaf: Value)
    requires |path| > 0 && path[0] == Name(k) && HasAt(v, path[1..], leaf)
    ensures Keeps(names, k, v) <==> !(|path| == 1 && IsSecretAt(path, leaf) && ListedOn(names, path))
  {
    hide FindListed, IsBlacklisted, IsEncryptableName;
    if |path| == 1 {
      assert path[0].name == k;
      assert names == [] ==> IsBlacklisted(names, k) by {
        EmptyListsAll(k);
      }
    }
  }

  lemma EmptyListsAll(k: string)
    ensures IsBlacklisted([], k)
  {
  }

  lemma SecretOnRest(path: seq<Step>, leaf: Value)
    requires |path| > 0
    ensures IsSecretAt(path[1..], leaf) <==> |path| > 1 && IsSecretAt(path, leaf)
  {
  }

  /** Leaf by leaf: a leaf stays, with its value and at its place, unless it is a secret and its field or
      some field around it is listed; and no other leaf appears. */
  lemma {:induction false} StripRemovesExactly(v: Value, names: seq<string>, path: seq<Step>, leaf: Value)
    requires IsLeaf(leaf)
    ensures HasAt(RemovePrivateKeys(v, names), path, leaf)
        <==> HasAt(v, path, leaf) && !(IsSecretAt(path, leaf) && ListedOn(names, path))
    decreases |path|
  {
    hide IsBlacklisted, IsEncryptableKeyField, ListedOn;
    if |path| == 0 {
      StripKeepsLeaves(v, names, leaf);
    } else {
      ListedOnStep(names, path);
      SecretOnRest(path, leaf);
      match path[0]
      case Index(i) =>
        if v.Arr? && i < |v.items| {
          StripRemovesExactly(v.items[i], names, path[1..], leaf);
        }
      case Name(k) =>
        if v.Obj? && k in v.fields {
          StripRemovesExactly(v.fields[k], Under(names, k), path[1..], leaf);
          StripObj(v.fields, names);
          if HasAt(v.fields[k], path[1..], leaf) {
            KeptOnPath(v.fields[k], names, k, path, leaf);
          }
        }
    }
  }

  /** The strictest mode leaves no secret: no text at all in a field with an encryptable name. */
  lemma {:induction false} PromptAllLeavesNoSecret(v: Value)
    ensures SecretCount(RemoveAccordingToSecurityMode(v, PROMPT_ALL), "") == 0
  {
    StripAllLeavesNone(v, "");
  }

  lemma {:induction false} StripAllLeavesNone(v: Value, name: string)
    requires !IsEncryptableKeyField(v, name)
    ensures SecretCount(RemovePrivateKeys(v, []), name) == 0
  {
    match v
    case Arr(items) =>
      var left := RemovePrivateKeys(v, []).items;
      forall i | 0 <= i < |items|
        ensures SecretCount(left[i], "") == 0
      {
        StripAllLeavesNone(items[i], "");
      }
      SumSeqZero(seq(|left|, i requires 0 <= i < |left| => SecretCount(left[i], "")));
    case Obj(fields) =>
      var left := RemovePrivateKeys(v, []).fields;
      forall k | k in left
        ensures SecretCount(left[k], k) == 0
      {
        StripAllLeavesNone(fields[k], k);
      }
      SumMapZero(map k | k in left :: SecretCount(left[k], k));
    case _ =>
  }

  /** Stripping and encrypting commute. */
  lemma {:induction false} StripCommutesWithEncrypt(c: Cipher, v: Value, password: string, name: string,
                                                    names: seq<string>)
    ensures RemovePrivateKeys(Encrypt(c, v, password, name), names)
        == Encrypt(c, RemovePrivateKeys(v, names), password, name)
  {
    match v
    case Arr(items) =>
      forall i | 0 <= i < |items|
        ensures RemovePrivateKeys(Encrypt(c, items[i], password, ""), names)
            == Encrypt(c, RemovePrivateKeys(items[i], names), password, "")
      {
        StripCommutesWithEncrypt(c, items[i], password, "", names);
      }
    case Obj(fields) =>
      forall k | k in fields
        ensures RemovePrivateKeys(Encrypt(c, fields[k], password, k), Under(names, k))
             == Encrypt(c, RemovePrivateKeys(fields[k], Under(names, k)), password, k)
      {
        StripCommutesWithEncrypt(c, fields[k], password, k, Under(names, k));
      }
      StripCommutesFields(c, fields, password, name, names);
    case _ =>
  }

  lemma EncryptKeepsKind(c: Cipher, v: Value, password: string, name: string)
    ensures Encrypt(c, v, password, name).Str? <==> v.Str?
  {
  }

  lemma StripCommutesFields(c: Cipher, fields: map<string, Value>, password: string, name: string, names: seq<string>)
    requires forall k | k in fields ::
      RemovePrivateKeys(Encrypt(c, fields[k], password, k), Under(names, k))
          == Encrypt(c, RemovePrivateKeys(fields[k], Under(names, k)), password, k)
    ensures RemovePrivateKeys(Encrypt(c, Obj(fields), password, name), names)
        == Encrypt(c, RemovePrivateKeys(Obj(fields), names), password, name)
  {
    hide Keeps, Under, Encrypt, RemovePrivateKeys;
    EncryptObj(c, fields, password, name);
    var encrypted := Encrypt(c, Obj(fields), password, name).fields;
    StripObj(encrypted, names);
    StripObj(fields, names);
    var stripped := RemovePrivateKeys(Obj(fields), names).fields;
    EncryptObj(c, stripped, password, name);
    forall k | k in fields
      ensures Keeps(names, k, encrypted[k]) == Keeps(names, k, fields[k])
    {
      KeepsEncrypted(c, fields[k], password, k, names);
    }
    assert RemovePrivateKeys(Obj(encrypted), names).fields == Encrypt(c, Obj(stripped), password, name).fields;
  }

  lemma EncryptObj(c: Cipher, fields: map<string, Value>, password: string, name: string)
    ensures var r := Encrypt(c, Obj(fields), password, name);
      && r.Obj? && r.fields.Keys == fields.Keys
      && forall k | k in fields :: r.fields[k] == Encrypt(c, fields[k], password, k)
  {
  }

  lemma StripObj(fields: map<string, Value>, names: seq<string>)
    ensures var r := RemovePrivateKeys(Obj(fields), names);
      && r.Obj?
      && (forall k :: k in r.fields <==> k in fields && Keeps(names, k, fields[k]))
      && forall k | k in r.fields :: r.fields[k] == RemovePrivateKeys(fields[k], Under(names, k))
  {
  }

  lemma KeepsEncrypted(c: Cipher, v: Value, password: string, k: string, names: seq<string>)
    ensures Keeps(names, k, Encrypt(c, v, password, k)) == Keeps(names, k, v)
  {
    EncryptKeepsKind(c, v, password, k);
  }
}
