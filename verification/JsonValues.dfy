/** Configuration values: the JavaScript values a YAML or JSON document can hold. */
module JsonValues {

  datatype Value =
    | Undefined
    | Null
    | NaN
    | Bool(b: bool)
    | Num(n: int)
    | Str(s: string)
    | Arr(items: seq<Value>)
    | Obj(fields: map<string, Value>)

  predicate Falsy(v: Value) {
    v.Undefined? || v.Null? || v.NaN? || v == Bool(false) || v == Num(0) || v == Str("")
  }

  function LowerChar(c: char): char {
    if 'A' <= c <= 'Z' then 'a' + (c - 'A') else c
  }

  function Lower(s: string): string {
    seq(|s|, i requires 0 <= i < |s| => LowerChar(s[i]))
  }

  predicate EndsWith(s: string, end: string) {
    |end| <= |s| && s[|s| - |end|..] == end
  }

  predicate StandsAt(s: string, part: string, i: nat) {
    i + |part| <= |s| && s[i..i + |part|] == part
  }

  predicate Contains(s: string, part: string) {
    exists i: nat | i <= |s| :: StandsAt(s, part, i)
  }

  // ----- paths into a value -----

  datatype Step = Name(name: string) | Index(i: nat)

  /** `x` stands in `v` at the end of the path. */
  predicate HasAt(v: Value, path: seq<Step>, x: Value) {
    if |path| == 0 then v == x
    else
      match path[0]
      case Name(k) => v.Obj? && k in v.fields && HasAt(v.fields[k], path[1..], x)
      case Index(i) => v.Arr? && i < |v.items| && HasAt(v.items[i], path[1..], x)
  }

  /** Neither an array nor an object. */
  predicate IsLeaf(v: Value) {
    !v.Arr? && !v.Obj?
  }

  // ----- adding numbers up over a list or over the fields of an object -----

  function SumSeq(counts: seq<nat>): nat {
    if |counts| == 0 then 0 else counts[0] + SumSeq(counts[1..])
  }

  ghost function SumMap(counts: map<string, nat>): nat {
    if counts == map[] then 0
    else
      var k :| k in counts;
      counts[k] + SumMap(counts - {k})
  }

  lemma {:induction false} SumSeqZero(counts: seq<nat>)
    ensures SumSeq(counts) == 0 <==> forall i | 0 <= i < |counts| :: counts[i] == 0
  {
    if |counts| != 0 {
      SumSeqZero(counts[1..]);
      assert forall i | 0 <= i < |counts[1..]| :: counts[1..][i] == counts[i + 1];
    }
  }

  lemma {:induction false} SumMapZero(counts: map<string, nat>)
    ensures SumMap(counts) == 0 <==> forall k | k in counts :: counts[k] == 0
  {
    if counts != map[] {
      var k :| k in counts && SumMap(counts) == counts[k] + SumMap(counts - {k});
      SumMapZero(counts - {k});
      assert forall j | j in counts && j != k :: j in counts - {k} && counts[j] == (counts - {k})[j];
    }
  }

  /** The sum does not depend on the order in which the fields are taken. */
  lemma {:induction false} SumMapTake(counts: map<string, nat>, k: string)
    requires k in counts
    ensures SumMap(counts) == counts[k] + SumMap(counts - {k})
  {
    var first :| first in counts && SumMap(counts) == counts[first] + SumMap(counts - {first});
    if first != k {
      SumMapTake(counts - {first}, k);
      SumMapTake(counts - {k}, first);
      assert counts - {first} - {k} == counts - {k} - {first};
    }
  }

  /** Fewer fields with smaller counts add up to no more; and to the same only when the counts agree and
      the fields left out count nothing. */
  lemma {:induction false} SumMapMonotone(a: map<string, nat>, b: map<string, nat>)
    requires a.Keys <= b.Keys && forall k | k in a :: a[k] <= b[k]
    ensures SumMap(a) <= SumMap(b)
    ensures SumMap(a) == SumMap(b)
        <==> (forall k | k in a :: a[k] == b[k]) && (forall k | k in b && k !in a :: b[k] == 0)
    decreases |b|
  {
    if b == map[] {
      assert a == map[];
    } else {
      var k :| k in b;
      SumMapTake(b, k);
      if k in a {
        SumMapTake(a, k);
      } else {
        assert a - {k} == a;
      }
      assert |b - {k}| < |b| by {
        assert (b - {k}).Keys == b.Keys - {k};
      }
      SumMapMonotone(a - {k}, b - {k});
      assert forall j | j in a && j != k :: j in a - {k} && (a - {k})[j] == a[j];
      assert forall j | j in b && j != k :: j in b - {k} && (b - {k})[j] == b[j];
    }
  }
}
