/** What UTF-8 is: the texts of Unicode scalar values, each in its one encoding (section 3 of
    RFC 3629). */
module Unicode {
  import opened Bytes

  type Scalar = c: int | 0 <= c < 0x11_0000 && !(0xD800 <= c < 0xE000)

  function EncodeChar(c: Scalar): (b: seq<byte>)
    ensures b != []
  {
    if c < 0x80 then [c]
    else if c < 0x800 then [0xC0 + c / 64, 0x80 + c % 64]
    else if c < 0x1_0000 then [0xE0 + c / 64 / 64, 0x80 + c / 64 % 64, 0x80 + c % 64]
    else [0xF0 + c / 64 / 64 / 64, 0x80 + c / 64 / 64 % 64, 0x80 + c / 64 % 64, 0x80 + c % 64]
  }

  function EncodeText(cs: seq<Scalar>): seq<byte> {
    if cs == [] then [] else EncodeChar(cs[0]) + EncodeText(cs[1..])
  }

  lemma {:induction false} CharEncoded(s: seq<byte>, i: nat, c: Scalar)
    requires i + |EncodeChar(c)| <= |s| && s[i..i + |EncodeChar(c)|] == EncodeChar(c)
    ensures CharLength(s, i) == |EncodeChar(c)|
  {
    var e := EncodeChar(c);
    var n := |e|;
    var part := s[i..i + n];
    assert s[i] == part[0];
    if n == 2 {
      assert s[i + 1] == part[1] == 0x80 + c % 64;
    } else if n == 3 {
      assert s[i + 1] == part[1] == 0x80 + c / 64 % 64 && s[i + 2] == part[2] == 0x80 + c % 64;
    } else if n == 4 {
      assert s[i + 1] == part[1] == 0x80 + c / 64 / 64 % 64 && s[i + 2] == part[2] == 0x80 + c / 64 % 64;
      assert s[i + 3] == part[3] == 0x80 + c % 64;
    }
  }

  /** The digits of a character in base 64. */
  lemma {:induction false} Joined(a: nat, b: nat, c: nat, d: nat)
    requires b < 64 && c < 64 && d < 64
    ensures var n := ((a * 64 + b) * 64 + c) * 64 + d;
            n % 64 == d && n / 64 % 64 == c && n / 64 / 64 % 64 == b && n / 64 / 64 / 64 == a
  {
  }

  lemma {:induction false} ThreeDecoded(s: seq<byte>, i: nat) returns (c: Scalar)
    requires i < |s| && CharLength(s, i) == 3
    ensures s[i..i + 3] == EncodeChar(c)
  {
    var x: nat, y: nat, z: nat := s[i] - 0xE0, s[i + 1] - 0x80, s[i + 2] - 0x80;
    Joined(0, x, y, z);
    c := (x * 64 + y) * 64 + z;
  }

  lemma {:induction false} FourDecoded(s: seq<byte>, i: nat) returns (c: Scalar)
    requires i < |s| && CharLength(s, i) == 4
    ensures s[i..i + 4] == EncodeChar(c)
  {
    var w: nat, x: nat, y: nat, z: nat := s[i] - 0xF0, s[i + 1] - 0x80, s[i + 2] - 0x80, s[i + 3] - 0x80;
    Joined(w, x, y, z);
    c := ((w * 64 + x) * 64 + y) * 64 + z;
  }

  lemma {:induction false} CharDecoded(s: seq<byte>, i: nat) returns (c: Scalar)
    requires i < |s| && CharLength(s, i) > 0
    ensures s[i..i + CharLength(s, i)] == EncodeChar(c)
  {
    var n := CharLength(s, i);
    if n == 1 {
      c := s[i];
    } else if n == 2 {
      var x: nat, y: nat := s[i] - 0xC0, s[i + 1] - 0x80;
      c := x * 64 + y;
    } else if n == 3 {
      c := ThreeDecoded(s, i);
    } else {
      c := FourDecoded(s, i);
    }
  }

  lemma {:induction false} EncodedFrom(s: seq<byte>, i: nat, cs: seq<Scalar>)
    requires i <= |s| && s[i..] == EncodeText(cs)
    ensures Utf8From(s, i)
    decreases |cs|
  {
    if cs != [] {
      var e := EncodeChar(cs[0]);
      assert s[i..][..|e|] == s[i..i + |e|] && s[i..][|e|..] == s[i + |e|..];
      CharEncoded(s, i, cs[0]);
      EncodedFrom(s, i + |e|, cs[1..]);
    }
  }

  lemma {:induction false} DecodedFrom(s: seq<byte>, i: nat) returns (cs: seq<Scalar>)
    requires i <= |s| && Utf8From(s, i)
    ensures s[i..] == EncodeText(cs)
    decreases |s| - i
  {
    if i == |s| {
      cs := [];
    } else {
      var n := CharLength(s, i);
      var c := CharDecoded(s, i);
      var rest := DecodedFrom(s, i + n);
      cs := [c] + rest;
      assert cs[1..] == rest && s[i..] == s[i..i + n] + s[i + n..];
    }
  }

  /** A byte string is a text exactly when it encodes scalar values, one after the other. */
  lemma {:induction false} Utf8Iff(s: seq<byte>)
    ensures Utf8(s) <==> exists cs :: EncodeText(cs) == s
  {
    assert s[0..] == s;
    if Utf8(s) { var cs := DecodedFrom(s, 0); }
    if exists cs :: EncodeText(cs) == s {
      var cs :| EncodeText(cs) == s;
      EncodedFrom(s, 0, cs);
    }
  }
}
