/** Shifts, masks and single bits of unsigned integers, as recursions on the
    binary digits. */
module Bits {

  function Pow2(k: nat): (r: nat)
    ensures r > 0
  {
    if k == 0 then 1 else 2 * Pow2(k - 1)
  }

  /** `(v >> p) & 1 == 1` */
  predicate Bit(v: nat, p: nat) {
    if p == 0 then v % 2 == 1 else Bit(v / 2, p - 1)
  }

  /** `v >> b` */
  function Shr(v: nat, b: nat): nat {
    if b == 0 then v else Shr(v / 2, b - 1)
  }

  /** `v | (1 << p)` */
  function SetBit(v: nat, p: nat): nat {
    if p == 0 then v / 2 * 2 + 1 else SetBit(v / 2, p - 1) * 2 + v % 2
  }

  /** The low `p` bits of `v`. */
  function Low(v: nat, p: nat): nat {
    if p == 0 then 0 else v % 2 + 2 * Low(v / 2, p - 1)
  }

  /** `x & y` */
  function And(x: nat, y: nat): nat {
    if x == 0 || y == 0 then 0 else (x % 2) * (y % 2) + 2 * And(x / 2, y / 2)
  }

  lemma {:induction false} BitOfSetBit(v: nat, p: nat, q: nat)
    ensures Bit(SetBit(v, p), q) == (q == p || Bit(v, q))
  {
    if p > 0 && q > 0 { BitOfSetBit(v / 2, p - 1, q - 1); }
  }

  lemma {:induction false} SetBitBound(v: nat, p: nat, k: nat)
    requires p < k && v < Pow2(k)
    ensures SetBit(v, p) < Pow2(k)
  {
    assert Pow2(k) == 2 * Pow2(k - 1) && v / 2 < Pow2(k - 1);
    if p > 0 {
      SetBitBound(v / 2, p - 1, k - 1);
      assert SetBit(v, p) == v % 2 + 2 * SetBit(v / 2, p - 1);
    }
  }

  /** Gathering one more bit extends the low part by that bit. */
  lemma {:induction false} LowStep(v: nat, p: nat)
    ensures Low(v, p + 1) == if Bit(v, p) then SetBit(Low(v, p), p) else Low(v, p)
  {
    if p > 0 { LowStep(v / 2, p - 1); }
  }

  /** A value that fits in `b` bits is its own low part. */
  lemma {:induction false} LowOfFitting(v: nat, b: nat)
    requires Shr(v, b) == 0
    ensures Low(v, b) == v
  {
    if b > 0 { LowOfFitting(v / 2, b - 1); }
  }

  lemma {:induction false} LowBound(v: nat, b: nat)
    ensures Low(v, b) < Pow2(b)
  {
    if b > 0 { LowBound(v / 2, b - 1); }
  }

  lemma {:induction false} ShrOfBounded(v: nat, b: nat)
    requires v < Pow2(b)
    ensures Shr(v, b) == 0
  {
    if b > 0 { ShrOfBounded(v / 2, b - 1); }
  }

  lemma {:induction false} ShrMonotone(v: nat, b: nat, c: nat)
    requires b <= c && Shr(v, b) == 0
    ensures Shr(v, c) == 0
  {
    if b > 0 {
      ShrMonotone(v / 2, b - 1, c - 1);
    } else if c > 0 {
      ShrMonotone(v / 2, 0, c - 1);
    }
  }

  /** Two `k`-bit numbers with the same bits are equal. */
  lemma {:induction false} SameBits(x: nat, y: nat, k: nat)
    requires x < Pow2(k) && y < Pow2(k)
    requires forall p :: 0 <= p < k ==> Bit(x, p) == Bit(y, p)
    ensures x == y
  {
    if k > 0 {
      assert Bit(x, 0) == Bit(y, 0);
      forall p | 0 <= p < k - 1 ensures Bit(x / 2, p) == Bit(y / 2, p) {
        assert Bit(x, p + 1) == Bit(y, p + 1);
      }
      SameBits(x / 2, y / 2, k - 1);
    }
  }

  /** Masking with a power of two less one is the remainder: `x & (2^k - 1)`. */
  lemma {:induction false} MaskIsMod(x: nat, k: nat)
    ensures And(x, Pow2(k) - 1) == x % Pow2(k)
  {
    if k > 0 && x > 0 {
      var h, m := Pow2(k - 1), Pow2(k) - 1;
      MaskIsMod(x / 2, k - 1);
      assert m / 2 == h - 1 && m % 2 == 1;
      assert And(x, m) == x % 2 + 2 * And(x / 2, h - 1);
      ModHalf(x, h);
    } else if k > 0 {
      ModUnique(0, Pow2(k), 0, 0);
    }
  }

  lemma {:induction false} ModHalf(x: nat, h: nat)
    requires h > 0
    ensures x % (2 * h) == x % 2 + 2 * (x / 2 % h)
  {
    var q, r := x / 2 / h, x / 2 % h;
    assert x / 2 == h * q + r;
    Doubled(h, q);
    ModUnique(x, 2 * h, q, 2 * r + x % 2);
  }

  lemma {:induction false} Doubled(h: int, q: int)
    ensures 2 * h * q == 2 * (h * q)
  {
  }

  lemma {:induction false} MulSign(m: int, d: int)
    requires m > 0
    ensures d >= 1 ==> m * d >= m
    ensures d <= -1 ==> m * d <= -m
  {
    if d >= 1 { assert m * d == m + m * (d - 1); }
    if d <= -1 { assert m * d == -m + m * (d + 1); }
  }

  lemma {:induction false} ModUnique(x: int, m: int, q: int, r: int)
    requires 0 <= r < m && x == m * q + r
    ensures x % m == r && x / m == q
  {
    var d := x / m - q;
    assert x == m * (x / m) + x % m;
    assert m * d == m * (x / m) - m * q;
    MulSign(m, d);
  }

  // ---------------------------------------------------------------- products

  lemma {:induction false} MulStep(p: int, n: int)
    ensures (p + 1) * n == p * n + n
    ensures p >= 0 && n >= 0 ==> p * n >= 0
  {
  }

  lemma {:induction false} MulCommutes(a: int, b: int)
    ensures a * b == b * a
  {
  }

  lemma {:induction false} MulMonotone(a: nat, b: nat, c: nat)
    requires b <= c
    ensures a * b <= a * c
  {
    assert a * c == a * b + a * (c - b);
  }

  lemma {:induction false} PowAdd(a: nat, b: nat)
    ensures Pow2(a + b) == Pow2(a) * Pow2(b)
  {
    if a > 0 {
      PowAdd(a - 1, b);
      assert 2 * Pow2(a - 1) * Pow2(b) == 2 * (Pow2(a - 1) * Pow2(b));
    }
  }

  lemma {:induction false} PowGrows(a: nat, b: nat)
    requires a <= b
    ensures Pow2(a) <= Pow2(b)
  {
    if a < b { PowGrows(a, b - 1); }
  }

  lemma {:induction false} Pow64()
    ensures Pow2(8) == 0x100 && Pow2(32) == 0x1_0000_0000 && Pow2(64) == 0x1_0000_0000_0000_0000
  {
    assert Pow2(8) == 16 * Pow2(4) == 0x100;
    PowAdd(8, 8);
    PowAdd(16, 16);
    PowAdd(32, 32);
  }

  /** A power of two below 2^64 has an exponent that a 64-bit shift takes. */
  lemma {:induction false} SmallExponent(k: nat)
    requires Pow2(k) < 0x1_0000_0000_0000_0000
    ensures k < 64
  {
    if k >= 64 {
      Pow64();
      PowGrows(64, k);
    }
  }

  lemma {:induction false} Regroup(a: int, b: int, p: int, t: int)
    ensures a * (b * p + t) == a * b * p + a * t
  {
  }

  lemma {:induction false} Below(a: int, b: int, t: int)
    requires a > 0 && t < b
    ensures a * t + a <= a * b
  {
    MulSign(a, b - t);
    assert a * (b - t) == a * b - a * t;
  }

  lemma {:induction false} Positive(a: int, b: int)
    requires a > 0 && b > 0
    ensures a * b > 0
  {
    MulSign(a, b);
  }

  /** Dividing by a product is dividing twice. */
  lemma {:induction false} DivideTwice(n: nat, a: nat, b: nat)
    requires a > 0 && b > 0
    ensures a * b > 0 && n / (a * b) == n / a / b
  {
    var q, r := n / a, n % a;
    var p, t := q / b, q % b;
    Positive(a, b);
    Regroup(a, b, p, t);
    Below(a, b, t);
    ModUnique(n, a * b, p, a * t + r);
  }

  /** Bit `p` is the binary digit of weight `2^p`. */
  lemma {:induction false} BitIsDigit(v: nat, p: nat)
    ensures Bit(v, p) <==> v / Pow2(p) % 2 == 1
  {
    if p > 0 {
      BitIsDigit(v / 2, p - 1);
      DivideTwice(v, 2, Pow2(p - 1));
    }
  }

  lemma {:induction false} ShrIsZero(v: nat, b: nat)
    ensures Shr(v, b) == 0 <==> v < Pow2(b)
  {
    if b > 0 { ShrIsZero(v / 2, b - 1); }
  }
}
