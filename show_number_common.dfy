/**
 * What the two show_number drivers share: the decimal digits of a shown
 * number and the write filter, in which 0 is a sentinel and values above
 * 999999 are dropped.
 */
module NumberFilter {
  import opened CTypes

  /** The largest number the six digits can show. */
  const MAX_VALUE: int := 999999
  /** The value that restarts the display instead of being queued. */
  const SENTINEL_VAL: int := 0

  /** Decimal digit `i` of `n`, least significant first: what `i` rounds of `% 10` and `/= 10` give. */
  function Digit(n: nat, i: nat): (d: nat)
    ensures d < 10
    decreases i
  {
    if i == 0 then n % 10 else Digit(n / 10, i - 1)
  }

  /** The six low digits of `n` rebuild `n` modulo 10^6. */
  lemma SixDigits(n: nat)
    ensures Digit(n, 0) + 10 * Digit(n, 1) + 100 * Digit(n, 2) + 1000 * Digit(n, 3)
            + 10000 * Digit(n, 4) + 100000 * Digit(n, 5) == n % 1000000
  {
    var q1 := n / 10;
    var q2 := q1 / 10;
    var q3 := q2 / 10;
    var q4 := q3 / 10;
    var q5 := q4 / 10;
    var q6 := q5 / 10;
    assert Digit(n, 5) == Digit(q1, 4) == Digit(q2, 3) == Digit(q3, 2) == Digit(q4, 1) == q5 % 10;
    assert Digit(n, 4) == Digit(q1, 3) == Digit(q2, 2) == Digit(q3, 1) == q4 % 10;
    assert Digit(n, 3) == Digit(q1, 2) == Digit(q2, 1) == q3 % 10;
    assert Digit(n, 2) == Digit(q1, 1) == q2 % 10;
    Rebuild(n, q1, q2, q3, q4, q5, q6);
  }

  lemma Rebuild(n: nat, q1: nat, q2: nat, q3: nat, q4: nat, q5: nat, q6: nat)
    requires q1 == n / 10 && q2 == q1 / 10 && q3 == q2 / 10 && q4 == q3 / 10 && q5 == q4 / 10 && q6 == q5 / 10
    ensures n % 10 + 10 * (q1 % 10) + 100 * (q2 % 10) + 1000 * (q3 % 10) + 10000 * (q4 % 10)
            + 100000 * (q5 % 10) == n % 1000000
  {
    var d0, d1, d2, d3, d4, d5 := n % 10, q1 % 10, q2 % 10, q3 % 10, q4 % 10, q5 % 10;
    assert n == 10 * q1 + d0;
    assert q1 == 10 * q2 + d1;
    assert q2 == 10 * q3 + d2;
    assert q3 == 10 * q4 + d3;
    assert q4 == 10 * q5 + d4;
    assert q5 == 10 * q6 + d5;
    var low := d0 + 10 * d1 + 100 * d2 + 1000 * d3 + 10000 * d4 + 100000 * d5;
    assert n == low + 1000000 * q6;
    ModUnique(n, q6, low);
  }

  lemma ModUnique(n: nat, q: nat, low: nat)
    requires low < 1000000 && n == low + 1000000 * q
    ensures n % 1000000 == low
  {
  }

  /** The values of a write that reach the FIFO, in order: neither the sentinel nor above `MAX_VALUE`. */
  function Filtered(values: seq<U32>): (r: seq<U32>)
    ensures |r| <= |values|
    ensures forall v :: v in r ==> SENTINEL_VAL < v <= MAX_VALUE
  {
    if values == [] then []
    else (if SENTINEL_VAL < values[0] <= MAX_VALUE then [values[0]] else []) + Filtered(values[1..])
  }

  /** A value is queued exactly when it was written and is a displayable number. */
  lemma {:induction false} FilteredMembers(values: seq<U32>, v: U32)
    ensures v in Filtered(values) <==> v in values && SENTINEL_VAL < v <= MAX_VALUE
  {
    if values != [] {
      FilteredMembers(values[1..], v);
      assert values == [values[0]] + values[1..];
    }
  }

  /** Filtering two writes one after the other is filtering their concatenation. */
  lemma {:induction false} FilteredAppend(a: seq<U32>, b: seq<U32>)
    ensures Filtered(a + b) == Filtered(a) + Filtered(b)
  {
    if a != [] {
      assert (a + b)[1..] == a[1..] + b;
      FilteredAppend(a[1..], b);
    } else {
      assert a + b == b;
    }
  }

  /** Writes of displayable numbers only are queued whole, in order. */
  lemma {:induction false} FilteredKeepsNumbers(values: seq<U32>)
    requires forall i :: 0 <= i < |values| ==> SENTINEL_VAL < values[i] <= MAX_VALUE
    ensures Filtered(values) == values
  {
    if values != [] {
      FilteredKeepsNumbers(values[1..]);
    }
  }
}
