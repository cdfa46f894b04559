/** Voting keys: a public key registered for a range of network epochs (both ends included). */
module VotingKeys {

  datatype VotingKey = VotingKey(publicKey: string, startEpoch: int, endEpoch: int)

  function UpperChar(c: char): char {
    if 'a' <= c <= 'z' then 'A' + (c - 'a') else c
  }

  function Upper(s: string): string {
    seq(|s|, i requires 0 <= i < |s| => UpperChar(s[i]))
  }

  /** The key as the chain stores it: hexadecimal text carries no case there. */
  function Canon(k: VotingKey): VotingKey {
    k.(publicKey := Upper(k.publicKey))
  }

  /** Same public key up to case, and the same epochs. */
  predicate SameAccount(x: VotingKey, y: VotingKey) {
    && Upper(x.publicKey) == Upper(y.publicKey)
    && x.startEpoch == y.startEpoch
    && x.endEpoch == y.endEpoch
  }

  predicate Overlaps(x: VotingKey, y: VotingKey) {
    x.endEpoch >= y.startEpoch && x.startEpoch <= y.endEpoch
  }

  predicate Covers(k: VotingKey, epoch: int) {
    k.startEpoch <= epoch <= k.endEpoch
  }

  predicate Proper(k: VotingKey) {
    k.startEpoch <= k.endEpoch
  }

  ghost predicate AllProper(keys: seq<VotingKey>) {
    forall k | k in keys :: Proper(k)
  }

  ghost predicate Disjoint(keys: seq<VotingKey>) {
    forall i, j | 0 <= i < j < |keys| :: !Overlaps(keys[i], keys[j])
  }

  /** Proper ranges, pairwise disjoint: what a sound set of keys or key files looks like. */
  ghost predicate Sound(keys: seq<VotingKey>) {
    AllProper(keys) && Disjoint(keys)
  }

  /** Proper ranges, and keys that share an epoch are the same account. */
  ghost predicate Coherent(keys: seq<VotingKey>) {
    && AllProper(keys)
    && forall x, y | x in keys && y in keys :: Overlaps(x, y) ==> SameAccount(x, y)
  }

  /** Sound keys listed by increasing epoch. */
  ghost predicate Ordered(keys: seq<VotingKey>) {
    && AllProper(keys)
    && forall i, j | 0 <= i < j < |keys| :: keys[i].endEpoch < keys[j].startEpoch
  }

  ghost function KeySet(keys: seq<VotingKey>): set<VotingKey> {
    set k | k in keys :: Canon(k)
  }

  function RemoveAt(keys: seq<VotingKey>, i: nat): seq<VotingKey>
    requires i < |keys|
  {
    keys[..i] + keys[i + 1..]
  }

  /** Position of the first key that overlaps `file`, or the length when there is none. */
  function FindOverlap(file: VotingKey, keys: seq<VotingKey>): (i: nat)
    ensures i <= |keys|
    ensures forall j | 0 <= j < i :: !Overlaps(file, keys[j])
    ensures i < |keys| ==> Overlaps(file, keys[i])
  {
    if |keys| == 0 || Overlaps(file, keys[0]) then 0 else 1 + FindOverlap(file, keys[1..])
  }

  /** Two ranges overlap exactly when some epoch lies in both. */
  lemma {:induction false} OverlapsIsSharedEpoch(x: VotingKey, y: VotingKey)
    requires Proper(x) && Proper(y)
    ensures Overlaps(x, y) <==> exists e :: Covers(x, e) && Covers(y, e)
  {
    if Overlaps(x, y) {
      var e := if x.startEpoch >= y.startEpoch then x.startEpoch else y.startEpoch;
      assert Covers(x, e) && Covers(y, e);
    }
  }

  /** The same letter, small or capital, or the same other character. */
  predicate SameLetter(c: char, d: char) {
    c == d || ('a' <= c <= 'z' && d as int == c as int - 32) || ('a' <= d <= 'z' && c as int == d as int - 32)
  }

  /** Accounts are compared by their epochs, and by their public keys letter by letter without regard to case. */
  lemma {:induction false} CaseIsIgnored(x: VotingKey, y: VotingKey)
    ensures SameAccount(x, y)
        <==> && x.startEpoch == y.startEpoch && x.endEpoch == y.endEpoch && |x.publicKey| == |y.publicKey|
             && forall i | 0 <= i < |x.publicKey| :: SameLetter(x.publicKey[i], y.publicKey[i])
  {
    var a, b := x.publicKey, y.publicKey;
    forall i | 0 <= i < |a| && |a| == |b|
      ensures Upper(a)[i] == Upper(b)[i] <==> SameLetter(a[i], b[i])
    {
      LettersCompared(a[i], b[i]);
    }
    if |a| == |b| && forall i | 0 <= i < |a| :: Upper(a)[i] == Upper(b)[i] {
      assert Upper(a) == Upper(b);
    }
    assert |Upper(a)| == |a| && |Upper(b)| == |b|;
  }

  lemma LettersCompared(c: char, d: char)
    ensures UpperChar(c) == UpperChar(d) <==> SameLetter(c, d)
  {
  }

  /** In a sound list, keys that overlap (in particular equal keys) stand at one position. */
  lemma SoundPosition(keys: seq<VotingKey>, i: nat, j: nat)
    requires Sound(keys) && i < |keys| && j < |keys|
    ensures Overlaps(keys[i], keys[j]) <==> i == j
  {
    assert keys[i] in keys && keys[j] in keys;
  }

  lemma SoundMembers(keys: seq<VotingKey>, x: VotingKey, y: VotingKey)
    requires Sound(keys) && x in keys && y in keys
    ensures Overlaps(x, y) <==> x == y
  {
    var i :| 0 <= i < |keys| && keys[i] == x;
    var j :| 0 <= j < |keys| && keys[j] == y;
    SoundPosition(keys, i, j);
  }

  lemma SoundIsCoherent(keys: seq<VotingKey>)
    requires Sound(keys)
    ensures Coherent(keys)
  {
    forall x, y | x in keys && y in keys
      ensures Overlaps(x, y) ==> SameAccount(x, y)
    {
      SoundMembers(keys, x, y);
    }
  }

  lemma KeySetAdd(keys: seq<VotingKey>, k: VotingKey)
    ensures KeySet(keys + [k]) == KeySet(keys) + {Canon(k)}
  {
    assert forall x :: x in keys + [k] <==> x in keys || x == k;
  }

  /** Forgetting letter case merges no two keys of a sound list. */
  lemma {:induction false} KeySetSize(keys: seq<VotingKey>)
    requires Sound(keys)
    ensures |KeySet(keys)| == |keys|
  {
    if |keys| != 0 {
      var init, last := keys[..|keys| - 1], keys[|keys| - 1];
      assert init + [last] == keys;
      assert Sound(init);
      KeySetSize(init);
      KeySetAdd(init, last);
      forall i: nat | i < |init|
        ensures Canon(init[i]) != Canon(last)
      {
        SoundPosition(keys, i, |init|);
        assert last in keys;
      }
    }
  }

  lemma KeySetRemove(keys: seq<VotingKey>, i: nat)
    requires Sound(keys) && i < |keys|
    ensures KeySet(RemoveAt(keys, i)) == KeySet(keys) - {Canon(keys[i])}
    ensures Sound(RemoveAt(keys, i))
    ensures forall k :: k in RemoveAt(keys, i) <==> k in keys && k != keys[i]
  {
    var rest := RemoveAt(keys, i);
    forall k | k in rest
      ensures k in keys && Canon(k) != Canon(keys[i])
    {
      var j :| 0 <= j < |rest| && rest[j] == k;
      var p := if j < i then j else j + 1;
      assert keys[p] == k;
      SoundPosition(keys, i, p);
      assert Proper(keys[i]);
    }
    forall k | k in keys && k != keys[i]
      ensures k in rest
    {
      var j :| 0 <= j < |keys| && keys[j] == k;
      assert k == rest[if j < i then j else j - 1];
    }
  }

  lemma KeySetMember(keys: seq<VotingKey>, c: VotingKey) returns (i: nat)
    requires c in KeySet(keys)
    ensures i < |keys| && Canon(keys[i]) == c
  {
    var k :| k in keys && Canon(k) == c;
    i :| 0 <= i < |keys| && keys[i] == k;
  }

  lemma SoundAppend(keys: seq<VotingKey>, k: VotingKey)
    requires Sound(keys) && Proper(k)
    requires forall x | x in keys :: !Overlaps(x, k)
    ensures Sound(keys + [k])
  {
  }

  lemma OrderedIsSound(keys: seq<VotingKey>)
    requires Ordered(keys)
    ensures Sound(keys)
  {
  }
}
