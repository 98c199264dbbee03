/** Bytes, fixed-width little-endian integers and their inverses. */
module Bytes {
  import Bits

  type byte = x: int | 0 <= x < 256

  const U16: nat := 0x1_0000
  const U32: nat := 0x1_0000_0000
  const U64: nat := 0x1_0000_0000_0000_0000
  const I64_MIN: int := -0x8000_0000_0000_0000
  const I64_MAX: int := 0x7fff_ffff_ffff_ffff

  type i64 = x: int | I64_MIN <= x <= I64_MAX

  predicate Follows(b: byte) { 0x80 <= b <= 0xBF }

  /** The length of the character at `i`, or none where no well-formed one stands: there is
      no overlong form, no surrogate, nothing above U+10FFFF (section 4 of RFC 3629). */
  function CharLength(s: seq<byte>, i: nat): (n: nat)
    requires i < |s|
    ensures n <= |s| - i
  {
    var b, left := s[i], |s| - i;
    if b < 0x80 then 1
    else if 0xC2 <= b <= 0xDF && left >= 2 && Follows(s[i + 1]) then 2
    else if
      && 0xE0 <= b <= 0xEF && left >= 3 && Follows(s[i + 1]) && Follows(s[i + 2])
      && (b == 0xE0 ==> s[i + 1] >= 0xA0) && (b == 0xED ==> s[i + 1] < 0xA0)
    then 3
    else if
      && 0xF0 <= b <= 0xF4 && left >= 4 && Follows(s[i + 1]) && Follows(s[i + 2]) && Follows(s[i + 3])
      && (b == 0xF0 ==> s[i + 1] >= 0x90) && (b == 0xF4 ==> s[i + 1] < 0x90)
    then 4
    else 0
  }

  /** From `i` on, characters follow one another to the end. */
  predicate Utf8From(s: seq<byte>, i: nat)
    requires i <= |s|
    decreases |s| - i
  {
    i == |s| || (CharLength(s, i) > 0 && Utf8From(s, i + CharLength(s, i)))
  }

  predicate Utf8(s: seq<byte>) { Utf8From(s, 0) }

  /** The bytes of a string of the original. */
  type Str = s: seq<byte> | Utf8(s)

  lemma {:induction false} AsciiIsUtf8(s: seq<byte>, i: nat)
    requires i <= |s| && forall b :: b in s ==> b < 0x80
    ensures Utf8From(s, i)
    decreases |s| - i
  {
    if i < |s| { assert s[i] in s; AsciiIsUtf8(s, i + 1); }
  }

  /** A text of the source as bytes. */
  function Ascii(s: string): (b: seq<byte>)
    ensures |b| == |s| && forall i :: 0 <= i < |s| ==> b[i] == s[i] as int % 256
  {
    seq(|s|, i requires 0 <= i < |s| => s[i] as int % 256)
  }

  function Pow256(k: nat): (r: nat)
    ensures r > 0
  {
    if k == 0 then 1 else 256 * Pow256(k - 1)
  }

  /** The low `k` bytes of `n`, least significant first (`to_le_bytes`). */
  function Little(n: nat, k: nat): (b: seq<byte>)
    ensures |b| == k
  {
    if k == 0 then [] else [n % 256] + Little(n / 256, k - 1)
  }

  /** The number that a little-endian byte string denotes (`from_le_bytes`). */
  function FromLittle(b: seq<byte>): nat {
    if b == [] then 0 else b[0] + 256 * FromLittle(b[1..])
  }

  lemma {:induction false} LittleRoundTrip(n: nat, k: nat)
    requires n < Pow256(k)
    ensures FromLittle(Little(n, k)) == n
  {
    if k > 0 {
      LittleRoundTrip(n / 256, k - 1);
      assert Little(n, k)[1..] == Little(n / 256, k - 1);
    }
  }

  lemma {:induction false} FromLittleBound(b: seq<byte>)
    ensures FromLittle(b) < Pow256(|b|)
  {
    if b != [] { FromLittleBound(b[1..]); }
  }

  /** The first byte counts least: byte `i` is the digit of weight `256^i`. */
  lemma {:induction false} BytePlace(b: seq<byte>, i: nat)
    requires i < |b|
    ensures FromLittle(b) / Pow256(i) % 256 == b[i]
  {
    if i > 0 {
      var n, rest, w := FromLittle(b), FromLittle(b[1..]), Pow256(i - 1);
      BytePlace(b[1..], i - 1);
      assert n / 256 == rest;
      Bits.DivideTwice(n, 256, w);
      assert Pow256(i) == 256 * w;
    }
  }

  lemma {:induction false} WidthBounds()
    ensures Pow256(2) == U16 && Pow256(4) == U32 && Pow256(8) == U64
  {
    assert Pow256(2) == U16;
    assert Pow256(4) == 256 * (256 * Pow256(2));
    assert Pow256(6) == 256 * (256 * Pow256(4));
    assert Pow256(8) == 256 * (256 * Pow256(6));
  }

  /** `n as u32` and `n as u64`: what does not fit is cut off. */
  function Cut32(n: nat): (r: nat)
    ensures r < U32
  {
    if n < U32 then n else n % U32
  }

  function Cut64(n: nat): (r: nat)
    ensures r < U64
  {
    if n < U64 then n else n % U64
  }

  function LE16(n: nat): seq<byte> { Little(n, 2) }
  function LE32(n: nat): seq<byte> { Little(n, 4) }
  function LE64(n: nat): seq<byte> { Little(n, 8) }

  /** Two's complement, as `i64::to_le_bytes` stores it. */
  function LEi64(v: i64): (b: seq<byte>)
    ensures |b| == 8
  {
    Little(if v < 0 then v + U64 else v, 8)
  }

  function FromLEi64(b: seq<byte>): i64
    requires |b| == 8
  {
    WidthBounds();
    FromLittleBound(b);
    var n := FromLittle(b);
    if n > I64_MAX then n - U64 else n
  }

  /** The stored number differs from the value by a multiple of `2^64`. */
  lemma {:induction false} TwosComplement(v: i64)
    ensures (FromLittle(LEi64(v)) - v) % U64 == 0
  {
    WidthBounds();
    LittleRoundTrip(if v < 0 then v + U64 else v, 8);
  }

  lemma {:induction false} I64RoundTrip(v: i64)
    ensures FromLEi64(LEi64(v)) == v
  {
    WidthBounds();
    LittleRoundTrip(if v < 0 then v + U64 else v, 8);
  }

  /** Reads a fixed-width integer that stands at offset `at`. */
  function Read(buf: seq<byte>, at: nat, k: nat): nat
    requires at + k <= |buf|
  {
    FromLittle(buf[at..at + k])
  }

  /** A width-`k` integer reads back wherever it stands in a buffer. */
  lemma {:induction false} ReadLittle(buf: seq<byte>, at: nat, n: nat, k: nat)
    requires at + k <= |buf| && buf[at..at + k] == Little(n, k)
    requires n < Pow256(k)
    ensures Read(buf, at, k) == n
  {
    LittleRoundTrip(n, k);
  }
}
