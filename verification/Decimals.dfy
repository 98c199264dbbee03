/** Decimal numbers as ASCII digits. */
module Decimals {
  import opened Bytes

  const ZERO: byte := 48

  predicate IsDigit(c: byte) { 48 <= c <= 57 }

  /** `n` with at least `width` digits. */
  function Decimal(n: nat, width: nat): seq<byte>
    decreases n + width
  {
    if n == 0 && width == 0 then []
    else Decimal(n / 10, if width == 0 then 0 else width - 1) + [ZERO + n % 10]
  }

  function FromDecimal(s: seq<byte>): int {
    if s == [] then 0 else 10 * FromDecimal(s[..|s| - 1]) + s[|s| - 1] - ZERO
  }

  lemma {:induction false} DecimalRoundTrip(n: nat, width: nat)
    ensures FromDecimal(Decimal(n, width)) == n
    ensures forall c :: c in Decimal(n, width) ==> IsDigit(c)
    ensures |Decimal(n, width)| >= width
    decreases n + width
  {
    if n != 0 || width != 0 {
      var front := Decimal(n / 10, if width == 0 then 0 else width - 1);
      DecimalRoundTrip(n / 10, if width == 0 then 0 else width - 1);
      assert (front + [ZERO + n % 10])[..|front|] == front;
    }
  }

  function Tens(k: nat): nat { if k == 0 then 1 else 10 * Tens(k - 1) }

  /** Each digit counts by its distance from the end. */
  lemma {:induction false} PlaceValue(s: seq<byte>)
    requires s != []
    ensures FromDecimal(s) == (s[0] - '0' as int) * Tens(|s| - 1) + FromDecimal(s[1..])
  {
    if |s| == 1 {
      assert s[..0] == [] && FromDecimal(s) == s[0] - ZERO && Tens(0) == 1;
    } else {
      var n := |s| - 1;
      PlaceValue(s[..n]);
      assert s[..n][1..] == s[1..][..n - 1];
      var d, t := s[0] - '0' as int, Tens(n - 1);
      assert 10 * (d * t) == d * (10 * t);
    }
  }

  lemma {:induction false} DecimalLength(n: nat, width: nat, max: nat)
    requires width <= max && n < Tens(max)
    ensures |Decimal(n, width)| <= max
    decreases n + width
  {
    if n != 0 || width != 0 {
      assert max > 0;
      DecimalLength(n / 10, if width == 0 then 0 else width - 1, max - 1);
    }
  }
}
