/** Notions that several parts share. */
module Basics {

  datatype Option<+T> = None | Some(value: T)

  datatype Result<+T> = Ok(value: T) | Err(error: string)

  /** Up to here a JavaScript number holds every integer exactly. */
  const MAX_SAFE_INTEGER := 9007199254740991

  predicate NoDuplicates(addresses: seq<string>) {
    forall i, j | 0 <= i < j < |addresses| :: addresses[i] != addresses[j]
  }

  function Decimal(n: nat): (r: string)
    ensures |r| >= 1 && (n >= 10 ==> |r| >= 2)
  {
    if n < 10 then ['0' + (n as char)] else Decimal(n / 10) + ['0' + ((n % 10) as char)]
  }

  lemma {:induction false} DecimalIsInjective(m: nat, n: nat)
    ensures Decimal(m) == Decimal(n) ==> m == n
  {
    var a, b := Decimal(m), Decimal(n);
    if a == b {
      assert a[|a| - 1] == b[|b| - 1];
      if m >= 10 && n >= 10 {
        assert a[..|a| - 1] == Decimal(m / 10) && b[..|b| - 1] == Decimal(n / 10);
        DecimalIsInjective(m / 10, n / 10);
      }
    }
  }
}
