/** Stripping with one list of names after another, and what an empty name in a list does. */
module StripLists {
  import opened Basics
  import opened JsonValues
  import opened CryptoUtils

  /** The names before the first empty one. */
  function BeforeEmpty(names: seq<string>): seq<string> {
    if |names| == 0 || names[0] == "" then [] else [names[0]] + BeforeEmpty(names[1..])
  }

  /** One of the names occurs in the field name, ignoring case. */
  predicate Occurs(names: seq<string>, name: string) {
    exists i | 0 <= i < |names| :: Contains(Lower(name), Lower(names[i]))
  }

  lemma EmptyOccurs(name: string)
    ensures Contains(Lower(name), Lower(""))
  {
    assert StandsAt(Lower(name), Lower(""), 0);
  }

  lemma {:induction false} FoundBeforeEmpty(names: seq<string>, name: string)
    ensures FindListed(names, name).Some? && FindListed(names, name).value != "" <==> Occurs(BeforeEmpty(names), name)
    ensures "" in names ==> FindListed(names, name).Some?
  {
    if |names| != 0 {
      FoundBeforeEmpty(names[1..], name);
      if names[0] == "" {
        EmptyOccurs(name);
      } else {
        OccursNext(names[0], BeforeEmpty(names[1..]), name);
      }
    }
  }

  lemma OccursNext(first: string, rest: seq<string>, name: string)
    ensures Occurs([first] + rest, name) <==> Contains(Lower(name), Lower(first)) || Occurs(rest, name)
  {
    var names := [first] + rest;
    if Occurs(rest, name) {
      var i :| 0 <= i < |rest| && Contains(Lower(name), Lower(rest[i]));
      assert names[i + 1] == rest[i];
    }
    if Contains(Lower(name), Lower(first)) {
      assert names[0] == first;
    }
  }

  lemma OccursConcat(a: seq<string>, b: seq<string>, name: string)
    ensures Occurs(a + b, name) <==> Occurs(a, name) || Occurs(b, name)
  {
    if Occurs(a, name) {
      var i :| 0 <= i < |a| && Contains(Lower(name), Lower(a[i]));
      assert (a + b)[i] == a[i];
    }
    if Occurs(b, name) {
      var i :| 0 <= i < |b| && Contains(Lower(name), Lower(b[i]));
      assert (a + b)[|a| + i] == b[i];
    }
  }

  /** A list that is not empty blacklists the fields in which a name before its first empty one occurs. */
  lemma BlacklistedBeforeEmpty(names: seq<string>, name: string)
    requires names != []
    ensures IsBlacklisted(names, name) <==> Occurs(BeforeEmpty(names), name)
  {
    FoundBeforeEmpty(names, name);
  }

  lemma {:induction false} NoEmptyToCut(names: seq<string>)
    ensures BeforeEmpty(BeforeEmpty(names)) == BeforeEmpty(names)
    ensures "" !in names ==> BeforeEmpty(names) == names
    ensures "" !in BeforeEmpty(names)
  {
    if |names| != 0 {
      NoEmptyToCut(names[1..]);
    }
  }

  lemma CutNext(first: string, rest: seq<string>)
    ensures BeforeEmpty([first] + rest) == if first == "" then [] else [first] + BeforeEmpty(rest)
    ensures "" in [first] + rest <==> first == "" || "" in rest
  {
    assert ([first] + rest)[1..] == rest;
  }

  lemma {:induction false} CutConcat(a: seq<string>, b: seq<string>)
    ensures BeforeEmpty(a + b) == if "" in a then BeforeEmpty(a) else a + BeforeEmpty(b)
  {
    hide BeforeEmpty;
    if |a| == 0 {
      assert a + b == b && a + BeforeEmpty(b) == BeforeEmpty(b);
    } else {
      var first, rest := a[0], a[1..];
      CutConcat(rest, b);
      CutNext(first, rest);
      CutNext(first, rest + b);
      assert a == [first] + rest;
      assert a + b == [first] + (rest + b);
      assert a + BeforeEmpty(b) == [first] + (rest + BeforeEmpty(b));
    }
  }

  lemma CutTwice(a: seq<string>, b: seq<string>)
    ensures BeforeEmpty(BeforeEmpty(a) + b) == BeforeEmpty(a) + BeforeEmpty(b)
  {
    hide BeforeEmpty;
    NoEmptyToCut(a);
    CutConcat(BeforeEmpty(a), b);
  }

  // ----- an empty name in a list -----

  lemma {:induction false} NothingListed(v: Value, names: seq<string>)
    requires names != [] && BeforeEmpty(names) == []
    ensures RemovePrivateKeys(v, names) == v
  {
    forall name
      ensures !IsBlacklisted(names, name)
    {
      BlacklistedBeforeEmpty(names, name);
    }
    match v
    case Arr(items) =>
      forall i | 0 <= i < |items|
        ensures RemovePrivateKeys(items[i], names) == items[i]
      {
        NothingListed(items[i], names);
      }
    case Obj(fields) =>
      forall k | k in fields
        ensures RemovePrivateKeys(fields[k], names) == fields[k]
      {
        NothingListed(fields[k], names);
      }
    case _ =>
  }

  /** A list behaves as its part before the first empty name; when nothing stands before it, nothing is
      stripped from any tree. */
  lemma {:induction false} EmptyNameDisarms(v: Value, names: seq<string>)
    requires names != []
    ensures RemovePrivateKeys(v, names)
         == if BeforeEmpty(names) == [] then v else RemovePrivateKeys(v, BeforeEmpty(names))
  {
    var part := BeforeEmpty(names);
    if part == [] {
      NothingListed(v, names);
    } else {
      NoEmptyToCut(names);
      forall name
        ensures IsBlacklisted(part, name) <==> IsBlacklisted(names, name)
      {
        BlacklistedBeforeEmpty(names, name);
        BlacklistedBeforeEmpty(part, name);
      }
      StripJoins(v, names, names, part);
      StripIsIdempotent(v, names);
    }
  }

  // ----- two lists in turn -----

  /** The union of two lists, where the empty list stands for all names, and what stands behind an empty
      name in the first list does not count. */
  function CutUnion(first: seq<string>, second: seq<string>): seq<string> {
    if first == [] || second == [] then [] else BeforeEmpty(first) + second
  }

  /** Stripping with two lists in turn is stripping with that union, for all lists. */
  lemma {:induction false} StripUnion(v: Value, first: seq<string>, second: seq<string>)
    ensures RemovePrivateKeys(RemovePrivateKeys(v, first), second) == RemovePrivateKeys(v, CutUnion(first, second))
  {
    forall name
      ensures IsBlacklisted(CutUnion(first, second), name)
          <==> IsBlacklisted(first, name) || IsBlacklisted(second, name)
    {
      if first != [] && second != [] {
        BlacklistedBeforeEmpty(first, name);
        BlacklistedBeforeEmpty(second, name);
        BlacklistedBeforeEmpty(CutUnion(first, second), name);
        CutTwice(first, second);
        OccursConcat(BeforeEmpty(first), BeforeEmpty(second), name);
      }
    }
    StripJoins(v, first, second, CutUnion(first, second));
  }

  /** The plain union, where the empty list stands for all names. */
  function Union(first: seq<string>, second: seq<string>): seq<string> {
    if first == [] || second == [] then [] else first + second
  }

  /** Before its first empty name, `first` has for each name of `second` a part of that name, unless it has
      one for every encryptable name. */
  predicate CoversSecrets(first: seq<string>, second: seq<string>) {
    var some, names := BeforeEmpty(first), BeforeEmpty(second);
    forall n, e | 0 <= n < |names| && 0 <= e < |ENCRYPTABLE_KEYS| ::
      Occurs(some, names[n]) || Occurs(some, ENCRYPTABLE_KEYS[e])
  }

  /** Stripping with two lists in turn is stripping with their plain union, on every tree, exactly when the
      first list has no empty name, or the second means all names, or what stands before the empty name
      covers the second list anyway. */
  lemma {:induction false} PlainUnionExactlyWhen(first: seq<string>, second: seq<string>)
    ensures (forall v ::
               RemovePrivateKeys(RemovePrivateKeys(v, first), second) == RemovePrivateKeys(v, Union(first, second)))
        <==> "" !in first || second == [] || CoversSecrets(first, second)
  {
    hide RemovePrivateKeys, CoversSecrets;
    if "" !in first || second == [] {
      NoEmptyToCut(first);
      forall v
        ensures RemovePrivateKeys(RemovePrivateKeys(v, first), second) == RemovePrivateKeys(v, Union(first, second))
      {
        StripUnion(v, first, second);
      }
    } else if CoversSecrets(first, second) {
      forall v
        ensures RemovePrivateKeys(RemovePrivateKeys(v, first), second) == RemovePrivateKeys(v, Union(first, second))
      {
        CoveredUnion(v, first, second);
      }
    } else {
      var v := UncoveredShows(first, second);
    }
  }

  /** Behind an empty name, the second list adds nothing to the plain union. */
  lemma UnionIsFirst(v: Value, first: seq<string>, second: seq<string>)
    requires "" in first && second != []
    ensures RemovePrivateKeys(v, Union(first, second)) == RemovePrivateKeys(v, first)
  {
    hide RemovePrivateKeys;
    CutConcat(first, second);
    EmptyNameDisarms(v, first);
    EmptyNameDisarms(v, first + second);
  }

  predicate IsSecretFree(v: Value) {
    match v
    case Arr(items) => forall i | 0 <= i < |items| :: IsSecretFree(items[i])
    case Obj(fields) => forall k | k in fields :: !IsEncryptableKeyField(fields[k], k) && IsSecretFree(fields[k])
    case _ => true
  }

  ghost predicate ListsSecrets(names: seq<string>) {
    forall k :: IsEncryptableName(k) ==> IsBlacklisted(names, k)
  }

  lemma {:induction false} StripsSecrets(v: Value, names: seq<string>)
    requires ListsSecrets(names)
    ensures IsSecretFree(RemovePrivateKeys(v, names))
  {
    hide IsEncryptableName, FindListed;
    match v
    case Arr(items) =>
      forall i | 0 <= i < |items|
        ensures IsSecretFree(RemovePrivateKeys(items[i], names))
      {
        StripsSecrets(items[i], names);
      }
    case Obj(fields) =>
      var left := RemovePrivateKeys(v, names).fields;
      forall k | k in left
        ensures !IsEncryptableKeyField(left[k], k) && IsSecretFree(left[k])
      {
        StripKeepsKind(fields[k], Under(names, k));
        StripsSecrets(fields[k], Under(names, k));
      }
    case _ =>
  }

  lemma {:induction false} NothingToStrip(v: Value, names: seq<string>)
    requires IsSecretFree(v)
    ensures RemovePrivateKeys(v, names) == v
  {
    hide IsEncryptableName, IsBlacklisted;
    match v
    case Arr(items) =>
      forall i | 0 <= i < |items|
        ensures RemovePrivateKeys(items[i], names) == items[i]
      {
        NothingToStrip(items[i], names);
      }
    case Obj(fields) =>
      forall k | k in fields
        ensures RemovePrivateKeys(fields[k], Under(names, k)) == fields[k]
      {
        NothingToStrip(fields[k], Under(names, k));
      }
    case _ =>
  }

  lemma ContainsInside(whole: string, middle: string, part: string)
    requires Contains(whole, middle) && Contains(middle, part)
    ensures Contains(whole, part)
  {
    var i: nat :| i <= |whole| && StandsAt(whole, middle, i);
    var j: nat :| j <= |middle| && StandsAt(middle, part, j);
    forall t | 0 <= t < |part|
      ensures whole[i + j..i + j + |part|][t] == part[t]
    {
      assert part[t] == middle[j..j + |part|][t] == middle[j + t] == whole[i..i + |middle|][j + t];
    }
    assert StandsAt(whole, part, i + j);
  }

  lemma OccursInside(names: seq<string>, name: string, part: string)
    requires Occurs(names, part) && Contains(Lower(name), Lower(part))
    ensures Occurs(names, name)
  {
    var i :| 0 <= i < |names| && Contains(Lower(part), Lower(names[i]));
    ContainsInside(Lower(name), Lower(part), Lower(names[i]));
  }

  lemma EncryptableContains(name: string) returns (e: nat)
    requires IsEncryptableName(name)
    ensures e < |ENCRYPTABLE_KEYS| && Contains(Lower(name), Lower(ENCRYPTABLE_KEYS[e]))
  {
    e :| 0 <= e < |ENCRYPTABLE_KEYS| && EndsWith(Lower(name), Lower(ENCRYPTABLE_KEYS[e]));
    assert StandsAt(Lower(name), Lower(ENCRYPTABLE_KEYS[e]), |name| - |ENCRYPTABLE_KEYS[e]|);
  }

  lemma CoveredUnion(v: Value, first: seq<string>, second: seq<string>)
    requires "" in first && second != [] && CoversSecrets(first, second)
    ensures RemovePrivateKeys(RemovePrivateKeys(v, first), second) == RemovePrivateKeys(v, Union(first, second))
  {
    hide RemovePrivateKeys, Occurs, BeforeEmpty, Union, IsEncryptableName;
    UnionIsFirst(v, first, second);
    var some, names := BeforeEmpty(first), BeforeEmpty(second);
    if forall e | 0 <= e < |ENCRYPTABLE_KEYS| :: Occurs(some, ENCRYPTABLE_KEYS[e]) {
      forall k | IsEncryptableName(k)
        ensures IsBlacklisted(first, k)
      {
        var e := EncryptableContains(k);
        OccursInside(some, k, ENCRYPTABLE_KEYS[e]);
        BlacklistedBeforeEmpty(first, k);
      }
      StripsSecrets(v, first);
      NothingToStrip(RemovePrivateKeys(v, first), second);
    } else {
      forall k
        ensures IsBlacklisted(second, k) ==> IsBlacklisted(first, k)
      {
        BlacklistedBeforeEmpty(first, k);
        BlacklistedBeforeEmpty(second, k);
        EachInside(some, names, k);
      }
      assert Joins(first, second, first);
      StripJoins(v, first, second, first);
    }
  }

  lemma EachInside(some: seq<string>, names: seq<string>, k: string)
    requires forall n | 0 <= n < |names| :: Occurs(some, names[n])
    ensures Occurs(names, k) ==> Occurs(some, k)
  {
    if Occurs(names, k) {
      var n :| 0 <= n < |names| && Contains(Lower(k), Lower(names[n]));
      OccursInside(some, k, names[n]);
    }
  }

  /** A secret in a field of the given names. */
  function SecretIn(name: string, key: string): Value {
    Obj(map[name := Obj(map[key := Str("secret")])])
  }

  lemma KeysAreEncryptable(e: nat)
    requires e < |ENCRYPTABLE_KEYS|
    ensures IsEncryptableName(ENCRYPTABLE_KEYS[e])
  {
    var key := ENCRYPTABLE_KEYS[e];
    assert EndsWith(Lower(key), Lower(key));
    assert key != "";
  }

  lemma ContainsItself(s: string)
    ensures Contains(s, s)
  {
    assert StandsAt(s, s, 0);
  }

  /** A name of the second list that is not covered: the secret of some tree survives the plain union. */
  lemma UncoveredShows(first: seq<string>, second: seq<string>) returns (v: Value)
    requires "" in first && second != [] && !CoversSecrets(first, second)
    ensures RemovePrivateKeys(RemovePrivateKeys(v, first), second) != RemovePrivateKeys(v, Union(first, second))
  {
    hide RemovePrivateKeys, Union, IsEncryptableName, IsBlacklisted, BeforeEmpty;
    var some, names := BeforeEmpty(first), BeforeEmpty(second);
    var n, e :| 0 <= n < |names| && 0 <= e < |ENCRYPTABLE_KEYS| && !Occurs(some, names[n])
        && !Occurs(some, ENCRYPTABLE_KEYS[e]);
    var name, key := names[n], ENCRYPTABLE_KEYS[e];
    v := SecretIn(name, key);
    UnionIsFirst(v, first, second);
    KeysAreEncryptable(e);
    BlacklistedBeforeEmpty(first, name);
    BlacklistedBeforeEmpty(first, key);
    BlacklistedBeforeEmpty(second, name);
    ContainsItself(Lower(name));
    SecretSurvives(name, key, first);
    SecretIsStripped(name, key, second);
  }

  lemma SecretSurvives(name: string, key: string, names: seq<string>)
    requires !IsBlacklisted(names, name) && !IsBlacklisted(names, key)
    ensures RemovePrivateKeys(SecretIn(name, key), names) == SecretIn(name, key)
  {
    hide IsBlacklisted, IsEncryptableName;
    var inner := Obj(map[key := Str("secret")]);
    assert RemovePrivateKeys(inner, names) == inner;
  }

  lemma SecretIsStripped(name: string, key: string, names: seq<string>)
    requires IsBlacklisted(names, name) && IsEncryptableName(key)
    ensures RemovePrivateKeys(SecretIn(name, key), names) != SecretIn(name, key)
  {
    hide FindListed, IsEncryptableName;
    var inner := Obj(map[key := Str("secret")]);
    assert key !in RemovePrivateKeys(inner, []).fields;
    assert RemovePrivateKeys(SecretIn(name, key), names).fields[name] == RemovePrivateKeys(inner, []);
  }

  /** For instance, an empty name behind `main` keeps the plain union from stripping a voting key. */
  lemma {:induction false} EmptyNameExample()
    ensures var first, second, v := ["main", ""], ["voting"], SecretIn("voting", "privateKey");
      RemovePrivateKeys(RemovePrivateKeys(v, first), second) != RemovePrivateKeys(v, Union(first, second))
  {
    hide RemovePrivateKeys, IsBlacklisted, IsEncryptableName;
    var first, second, v := ["main", ""], ["voting"], SecretIn("voting", "privateKey");
    assert first[1..][0] == "" && BeforeEmpty(first[1..]) == [] && BeforeEmpty(first) == ["main"];
    assert second[1..] == [] && BeforeEmpty(second) == ["voting"];
    assert first[1] == "";
    UnionIsFirst(v, first, second);
    KeysAreEncryptable(0);
    MainIsElsewhere();
    BlacklistedBeforeEmpty(first, "voting");
    BlacklistedBeforeEmpty(first, "privateKey");
    BlacklistedBeforeEmpty(second, "voting");
    ContainsItself(Lower("voting"));
    SecretSurvives("voting", "privateKey", first);
    SecretIsStripped("voting", "privateKey", second);
  }

  lemma MainIsElsewhere()
    ensures !Occurs(["main"], "voting") && !Occurs(["main"], "privateKey")
  {
    assert Lower("main")[0] == 'm';
    assert forall i | 0 <= i < 6 :: Lower("voting")[i] != 'm';
    assert forall i | 0 <= i < 10 :: Lower("privateKey")[i] != 'm';
    NotInside("voting", "main");
    NotInside("privateKey", "main");
  }

  lemma NotInside(name: string, part: string)
    requires part != "" && forall i | 0 <= i < |name| :: Lower(name)[i] != Lower(part)[0]
    ensures !Contains(Lower(name), Lower(part))
  {
    forall i: nat | i <= |name|
      ensures !StandsAt(Lower(name), Lower(part), i)
    {
      assert i + |part| <= |name| ==> Lower(name)[i..i + |part|][0] == Lower(name)[i];
    }
  }
}
