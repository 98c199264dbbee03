/** LEB128 integers: section 7.6 of the DWARF Debugging Information Format
    Version 5, for unsigned 32-bit values. */
module Varint {
  import opened Prelude
  import opened Bytes
  import opened Bits

  function Encode(v: nat): (b: seq<byte>)
    ensures b != []
  {
    if v < 128 then [v] else [v % 128 + 128] + Encode(v / 128)
  }

  method EncodeU32(value: nat, out0: seq<byte>) returns (out: seq<byte>)
    requires value < U32
    ensures out == out0 + Encode(value)
  {
    var v := value;
    out := out0;
    while true
      invariant out + Encode(v) == out0 + Encode(value)
      decreases v
    {
      var b := v % 128;
      ghost var was := v;
      v := v / 128;
      if v != 0 {
        b := b + 128;
        out := out + [b];
      } else {
        out := out + [b];
        return;
      }
    }
  }

  /** Where the groups of seven bits begin. */
  predicate Place(shift: nat) { shift == 0 || shift == 7 || shift == 14 || shift == 21 || shift == 28 }

  /** The low seven bits of a byte, at their place in a 32-bit result. */
  function Group(b: byte, shift: nat): nat { Cut32(b % 128 * Pow2(shift)) }

  /** One value from `pos` on, and the position behind it.  The seven payload
      bits go above the `shift` bits read so far; what a fifth byte holds beyond
      bit 31 is shifted out. */
  function Decode(buf: seq<byte>, pos: nat, result: nat, shift: nat): Option<(nat, nat)>
    decreases 35 - shift
  {
    if pos >= |buf| then None
    else
      var r := result + Group(buf[pos], shift);
      if buf[pos] < 128 then Some((r, pos + 1))
      else if shift + 7 >= 35 then None
      else Decode(buf, pos + 1, r, shift + 7)
  }

  method DecodeU32(buf: seq<byte>, start: nat) returns (r: Option<(nat, nat)>)
    ensures r == Decode(buf, start, 0, 0)
  {
    var pos: nat, result: nat, shift: nat := start, 0, 0;
    while true
      invariant Place(shift)
      invariant Decode(buf, start, 0, 0) == Decode(buf, pos, result, shift)
      decreases 35 - shift
    {
      if pos >= |buf| { return None; }
      var b := buf[pos];
      pos := pos + 1;
      result := result + Group(b, shift);
      if b < 128 { return Some((result, pos)); }
      shift := shift + 7;
      if shift >= 35 { return None; }
    }
  }

  lemma {:induction false} NextScale(shift: nat)
    ensures Pow2(shift + 7) == 128 * Pow2(shift)
  {
    assert Pow2(shift + 7) == 4 * Pow2(shift + 5) == 16 * Pow2(shift + 3) == 64 * Pow2(shift + 1);
  }

  /** Five bytes hold 35 bits, so a sixth is never needed. */
  lemma {:induction false} FifthIsLast(v: nat, shift: nat)
    requires shift >= 28 && v * Pow2(shift) < U32
    ensures v < 128
  {
    NextScale(0); NextScale(7); NextScale(14); NextScale(21);
    PowGrows(28, shift);
    if v >= 128 {
      Grow(128, v, Pow2(28), Pow2(shift));
    }
  }

  lemma {:induction false} Grow(a: nat, b: nat, c: nat, d: nat)
    requires a <= b && c <= d
    ensures a * c <= b * d
  {
    assert b * d == a * c + (b - a) * c + b * (d - c);
  }

  /** The seven bits read now and the rest, each at its own scale. */
  lemma {:induction false} Split(v: nat, scale: nat)
    ensures v * scale == v % 128 * scale + v / 128 * (128 * scale)
    ensures 0 <= v % 128 * scale <= v * scale
    ensures v < 128 ==> v % 128 * scale == v * scale
  {
    assert v == v % 128 + v / 128 * 128;
    Distribute(v % 128, v / 128 * 128, scale);
    assert v / 128 * 128 * scale == v / 128 * (128 * scale);
    NotNegative(v % 128, scale);
    NotNegative(v / 128, 128 * scale);
  }

  lemma {:induction false} NotNegative(a: nat, b: nat)
    ensures a * b >= 0
  {
  }

  lemma {:induction false} Distribute(a: nat, b: nat, scale: nat)
    ensures (a + b) * scale == a * scale + b * scale
  {
  }

  lemma {:induction false} DecodeByte(buf: seq<byte>, pos: nat, result: nat, shift: nat, group: nat)
    requires pos < |buf| && group == buf[pos] % 128 * Pow2(shift) < U32
    ensures buf[pos] < 128 ==> Decode(buf, pos, result, shift) == Some((result + group, pos + 1))
    ensures buf[pos] >= 128 && shift + 7 < 35 ==>
      Decode(buf, pos, result, shift) == Decode(buf, pos + 1, result + group, shift + 7)
  {
  }

  lemma {:induction false} FirstByte(buf: seq<byte>, pos: nat, v: nat, end: nat)
    requires end == pos + |Encode(v)| <= |buf| && buf[pos..end] == Encode(v)
    ensures buf[pos] % 128 == v % 128 && (buf[pos] < 128 <==> v < 128)
    ensures v < 128 ==> end == pos + 1 && v % 128 == v
    ensures v >= 128 ==> end == pos + 1 + |Encode(v / 128)| && buf[pos + 1..end] == Encode(v / 128)
  {
    assert buf[pos] == Encode(v)[0];
    if v >= 128 { assert buf[pos + 1..end] == Encode(v)[1..]; }
  }

  lemma {:induction false} DecodeTail(buf: seq<byte>, pos: nat, v: nat, result: nat, shift: nat, scale: nat,
      total: nat, end: nat)
    requires Place(shift) && scale == Pow2(shift)
    requires total == result + v * scale < U32
    requires end == pos + |Encode(v)| <= |buf| && buf[pos..end] == Encode(v)
    ensures Decode(buf, pos, result, shift) == Some((total, end))
    decreases v
  {
    FirstByte(buf, pos, v, end);
    Split(v, scale);
    var group: nat := v % 128 * scale;
    if v < 128 {
      DecodeByte(buf, pos, result, shift, group);
    } else {
      if shift == 28 { FifthIsLast(v, shift); }
      DecodeByte(buf, pos, result, shift, group);
      NextScale(shift);
      DecodeTail(buf, pos + 1, v / 128, result + group, shift + 7, 128 * scale, total, end);
    }
  }

  /** Decoding returns the encoded value and stops right behind it, wherever in
      the buffer it stands. */
  lemma {:induction false} RoundTrip(buf: seq<byte>, pos: nat, v: nat)
    requires v < U32
    requires pos + |Encode(v)| <= |buf| && buf[pos..pos + |Encode(v)|] == Encode(v)
    ensures Decode(buf, pos, 0, 0) == Some((v, pos + |Encode(v)|))
  {
    DecodeTail(buf, pos, v, 0, 0, 1, v, pos + |Encode(v)|);
  }

  function Pow128(k: nat): (r: nat)
    ensures r > 0
  {
    if k == 0 then 1 else 128 * Pow128(k - 1)
  }

  /** Seven bits to a byte, the lowest first, and the high bit on all but the last byte. */
  lemma {:induction false} EncodedDigits(v: nat, i: nat)
    requires i < |Encode(v)|
    ensures Encode(v)[i] % 128 == v / Pow128(i) % 128
    ensures Encode(v)[i] >= 128 <==> i + 1 < |Encode(v)|
  {
    if i > 0 {
      var rest := Encode(v / 128);
      assert Encode(v) == [v % 128 + 128] + rest && Encode(v)[i] == rest[i - 1];
      EncodedDigits(v / 128, i - 1);
      Bits.DivideTwice(v, 128, Pow128(i - 1));
    }
  }

  /** No more bytes than the value needs. */
  lemma {:induction false} EncodedLength(v: nat)
    ensures v < Pow128(|Encode(v)|) && (|Encode(v)| > 1 ==> v >= Pow128(|Encode(v)| - 1))
  {
    if v >= 128 {
      EncodedLength(v / 128);
    } else {
      assert Pow128(1) == 128 * Pow128(0);
    }
  }

  // ---------------------------------------------------------------- any bytes

  /** The first byte below 128 is `n` bytes behind `pos`. */
  predicate Ends(buf: seq<byte>, pos: nat, n: nat) {
    pos + n < |buf| && buf[pos + n] < 128 && forall i :: pos <= i < pos + n ==> buf[i] >= 128
  }

  /** The number that the low seven bits of the bytes make, the first counting least. */
  function Digits(b: seq<byte>): nat { if b == [] then 0 else b[0] % 128 + 128 * Digits(b[1..]) }

  /** The fifth byte: what lies beyond bit 31 is a multiple of `2^32`. */
  lemma {:induction false} TopByte(b: byte, result: nat)
    requires result < 268435456
    ensures result + Cut32(b * 268435456) == (result + b * 268435456) % U32
  {
    var low := b % 16 * 268435456;
    assert b * 268435456 == b / 16 * U32 + low by { assert b == b / 16 * 16 + b % 16; }
    OverWhole(b / 16, low);
    OverWhole(b / 16, result + low);
  }

  lemma {:induction false} OverWhole(q: nat, r: nat)
    requires r < U32
    ensures (q * U32 + r) % U32 == r && Cut32(q * U32 + r) == r
  {
  }

  /** The places of the groups, as powers. */
  predicate Scaled(shift: nat, scale: nat) {
    || (shift == 0 && scale == 1) || (shift == 7 && scale == 128) || (shift == 14 && scale == 16384)
    || (shift == 21 && scale == 2097152) || (shift == 28 && scale == 268435456)
  }

  lemma {:induction false} ScaledPow(shift: nat, scale: nat)
    requires Scaled(shift, scale)
    ensures scale == Pow2(shift)
  {
    NextScale(0); NextScale(7); NextScale(14); NextScale(21);
  }

  lemma {:induction false} InnerBits(b: nat, result: nat, scale: nat)
    requires b < 128 && 0 < scale <= 2097152 && result < scale
    ensures result + b * scale < 128 * scale < U32 && Cut32(b * scale) == b * scale
  {
    NotNegative(127 - b, scale);
    NotNegative(b, scale);
    assert 127 * scale == b * scale + (127 - b) * scale;
  }

  lemma {:induction false} LastByte(b: byte, result: nat, shift: nat, scale: nat)
    requires b < 128 && Scaled(shift, scale) && result < scale
    ensures result + Group(b, shift) == (result + b * scale) % U32
  {
    ScaledPow(shift, scale);
    assert b % 128 == b;
    if shift == 28 { TopByte(b, result); } else { InnerBits(b, result, scale); }
  }

  lemma {:induction false} InnerByte(b: byte, result: nat, shift: nat, scale: nat)
    requires Scaled(shift, scale) && shift < 28 && result < scale
    ensures Group(b, shift) == b % 128 * scale && result + Group(b, shift) < 128 * scale
    ensures Scaled(shift + 7, 128 * scale)
  {
    ScaledPow(shift, scale);
    InnerBits(b % 128, result, scale);
  }

  lemma {:induction false} FirstDigit(b: byte, rest: seq<byte>, all: seq<byte>)
    requires all == [b] + rest
    ensures Digits(all) == b % 128 + 128 * Digits(rest)
  {
    assert all[1..] == rest;
  }

  /** What the bytes make above the bits read before. */
  function Above(result: nat, bytes: seq<byte>, scale: nat): nat { (result + Digits(bytes) * scale) % U32 }

  lemma {:induction false} AboveNext(result: nat, bytes: seq<byte>, b: byte, rest: seq<byte>, scale: nat)
    requires bytes == [b] + rest
    ensures Above(result, bytes, scale) == Above(result + b % 128 * scale, rest, 128 * scale)
  {
    var low, high := b % 128, Digits(rest);
    FirstDigit(b, rest, bytes);
    Distribute(low, 128 * high, scale);
    assert 128 * high * scale == high * (128 * scale);
    NotNegative(low, scale);
  }

  lemma {:induction false} AboveLast(result: nat, b: byte, scale: nat)
    requires b < 128
    ensures Above(result, [b], scale) == (result + b * scale) % U32
  {
    assert [b] == [b] + [];
    FirstDigit(b, [], [b]);
  }

  lemma {:induction false} DecodeOne(buf: seq<byte>, pos: nat, result: nat, shift: nat, group: nat)
    requires pos < |buf| && group == Group(buf[pos], shift)
    ensures buf[pos] < 128 ==> Decode(buf, pos, result, shift) == Some((result + group, pos + 1))
    ensures buf[pos] >= 128 && shift < 28 ==>
      Decode(buf, pos, result, shift) == Decode(buf, pos + 1, result + group, shift + 7)
  {
  }

  lemma {:induction false} DecodeEnds(buf: seq<byte>, pos: nat, result: nat, shift: nat, scale: nat, n: nat,
      bytes: seq<byte>, v: nat)
    requires Scaled(shift, scale) && shift + 7 * n < 35 && result < scale
    requires Ends(buf, pos, n) && bytes == buf[pos..pos + n + 1] && v == Above(result, bytes, scale)
    ensures Decode(buf, pos, result, shift) == Some((v, pos + n + 1))
    decreases n
  {
    var b := buf[pos];
    var group := Group(b, shift);
    DecodeOne(buf, pos, result, shift, group);
    if n == 0 {
      assert bytes == [b];
      OnlyByte(b, result, shift, scale, group, v);
    } else {
      var rest, more: nat := buf[pos + 1..pos + n + 1], result + group;
      assert bytes == [b] + rest;
      ByteAndMore(b, rest, bytes, result, shift, scale, group, v);
      DecodeEnds(buf, pos + 1, more, shift + 7, 128 * scale, n - 1, rest, v);
    }
  }

  lemma {:induction false} OnlyByte(b: byte, result: nat, shift: nat, scale: nat, group: nat, v: nat)
    requires b < 128 && Scaled(shift, scale) && result < scale && group == Group(b, shift)
    requires v == Above(result, [b], scale)
    ensures result + group == v
  {
    LastByte(b, result, shift, scale);
    AboveLast(result, b, scale);
  }

  lemma {:induction false} ByteAndMore(b: byte, rest: seq<byte>, bytes: seq<byte>, result: nat, shift: nat, scale: nat,
      group: nat, v: nat)
    requires Scaled(shift, scale) && shift < 28 && result < scale && group == Group(b, shift) && bytes == [b] + rest
    requires v == Above(result, bytes, scale)
    ensures Scaled(shift + 7, 128 * scale) && result + group < 128 * scale
    ensures v == Above(result + group, rest, 128 * scale)
  {
    InnerByte(b, result, shift, scale);
    AboveNext(result, bytes, b, rest, scale);
  }

  lemma {:induction false} DecodeFails(buf: seq<byte>, pos: nat, result: nat, shift: nat)
    requires Place(shift) && forall n: nat :: shift + 7 * n < 35 ==> !Ends(buf, pos, n)
    ensures Decode(buf, pos, result, shift) == None
    decreases 35 - shift
  {
    if pos < |buf| {
      assert !Ends(buf, pos, 0);
      if shift < 28 {
        forall n: nat | shift + 7 + 7 * n < 35 ensures !Ends(buf, pos + 1, n) { assert !Ends(buf, pos, n + 1); }
        DecodeFails(buf, pos + 1, result + Group(buf[pos], shift), shift + 7);
      }
    }
  }

  /** Any bytes have a number at `pos` if and only if one of the first five is below 128.  It is
      then what the seven bits of each make, as far as it fits 32 bits. */
  lemma {:induction false} DecodeIff(buf: seq<byte>, pos: nat)
    ensures Decode(buf, pos, 0, 0).Some? <==> exists n: nat :: n < 5 && Ends(buf, pos, n)
    ensures forall n: nat :: n < 5 && Ends(buf, pos, n) ==>
      Decode(buf, pos, 0, 0) == Some((Digits(buf[pos..pos + n + 1]) % U32, pos + n + 1))
  {
    forall n: nat | n < 5 && Ends(buf, pos, n)
      ensures Decode(buf, pos, 0, 0) == Some((Digits(buf[pos..pos + n + 1]) % U32, pos + n + 1))
    {
      var bytes := buf[pos..pos + n + 1];
      assert Above(0, bytes, 1) == Digits(bytes) % U32;
      DecodeEnds(buf, pos, 0, 0, 1, n, bytes, Digits(bytes) % U32);
    }
    if forall n: nat :: n < 5 ==> !Ends(buf, pos, n) { DecodeFails(buf, pos, 0, 0); }
  }
}
