/** ASCII folding, substring occurrence and byte trigrams. */
module Text {
  import opened Prelude
  import opened Bytes

  function Lower(b: byte): byte { if 65 <= b <= 90 then b + 32 else b }

  function Fold(s: seq<byte>): (r: seq<byte>)
    ensures |r| == |s|
    ensures forall i :: 0 <= i < |s| ==> r[i] == Lower(s[i])
  {
    seq(|s|, i requires 0 <= i < |s| => Lower(s[i]))
  }

  const CAPITALS := Ascii("ABCDEFGHIJKLMNOPQRSTUVWXYZ")
  const SMALL := Ascii("abcdefghijklmnopqrstuvwxyz")

  lemma {:induction false} LetterCodes(k: nat)
    requires k < 26
    ensures CAPITALS[k] == 65 + k && SMALL[k] == 97 + k
  {
    var upper, lower := "ABCDEFGHIJKLMNOPQRSTUVWXYZ", "abcdefghijklmnopqrstuvwxyz";
    assert upper[k] as int == 65 + k && lower[k] as int == 97 + k;
  }

  /** Folding turns each of the 26 capital letters into its small one and keeps every other
      byte. */
  lemma {:induction false} FoldExact(s: seq<byte>, i: nat)
    requires i < |s|
    ensures forall k :: 0 <= k < 26 && s[i] == CAPITALS[k] ==> Fold(s)[i] == SMALL[k]
    ensures s[i] !in CAPITALS ==> Fold(s)[i] == s[i]
  {
    forall k | 0 <= k < 26 && s[i] == CAPITALS[k] ensures Fold(s)[i] == SMALL[k] { LetterCodes(k); }
    if 65 <= s[i] <= 90 { LetterCodes(s[i] - 65); }
  }

  method FoldInPlace(bytes: array<byte>)
    modifies bytes
    ensures bytes[..] == Fold(old(bytes[..]))
  {
    for i := 0 to bytes.Length
      invariant forall j :: 0 <= j < bytes.Length ==> bytes[j] == if j < i then Lower(old(bytes[j])) else old(bytes[j])
    {
      if 65 <= bytes[i] <= 90 {
        bytes[i] := bytes[i] + 32;
      }
    }
  }

  predicate Occurs(hay: seq<byte>, needle: seq<byte>, i: nat) {
    i + |needle| <= |hay| && hay[i..i + |needle|] == needle
  }

  predicate Contains(hay: seq<byte>, needle: seq<byte>) {
    exists i :: 0 <= i <= |hay| && Occurs(hay, needle, i)
  }

  lemma {:induction false} FoldOccurs(hay: seq<byte>, needle: seq<byte>, i: nat)
    requires Occurs(hay, needle, i)
    ensures Occurs(Fold(hay), Fold(needle), i)
  {
    var part := Fold(hay)[i..i + |needle|];
    forall k | 0 <= k < |needle| ensures part[k] == Fold(needle)[k] {
      assert hay[i..i + |needle|][k] == needle[k];
    }
  }

  lemma {:induction false} FoldContains(hay: seq<byte>, needle: seq<byte>)
    requires Contains(hay, needle)
    ensures Contains(Fold(hay), Fold(needle))
  {
    var i :| 0 <= i <= |hay| && Occurs(hay, needle, i);
    FoldOccurs(hay, needle, i);
  }

  // ---------------------------------------------------------------- what a match is

  /** The text has a part that is the needle, or that differs from it in the case of letters
      alone. */
  ghost predicate HasPart(text: seq<byte>, needle: seq<byte>, cs: bool) {
    exists a, x, b :: Parts(text, a, x, b) && if cs then x == needle else Fold(x) == Fold(needle)
  }

  predicate Parts(text: seq<byte>, a: seq<byte>, x: seq<byte>, b: seq<byte>) { text == a + x + b }

  lemma {:induction false} ContainsPart(text: seq<byte>, needle: seq<byte>)
    ensures Contains(text, needle) <==> HasPart(text, needle, true)
  {
    if Contains(text, needle) {
      var i :| 0 <= i <= |text| && Occurs(text, needle, i);
      assert Parts(text, text[..i], needle, text[i + |needle|..]);
    }
    if HasPart(text, needle, true) {
      var a, x, b :| Parts(text, a, x, b) && x == needle;
      assert Occurs(text, needle, |a|);
    }
  }

  lemma {:induction false} FoldedPart(text: seq<byte>, needle: seq<byte>)
    ensures Contains(Fold(text), Fold(needle)) <==> HasPart(text, needle, false)
  {
    if Contains(Fold(text), Fold(needle)) {
      var i :| 0 <= i <= |Fold(text)| && Occurs(Fold(text), Fold(needle), i);
      var e := i + |needle|;
      assert Fold(text[i..e]) == Fold(text)[i..e];
      assert Parts(text, text[..i], text[i..e], text[e..]);
    }
    if HasPart(text, needle, false) {
      var a, x, b :| Parts(text, a, x, b) && Fold(x) == Fold(needle);
      assert Fold(text) == Fold(a) + Fold(x) + Fold(b);
      assert Occurs(Fold(text), Fold(needle), |a|);
    }
  }

  // ---------------------------------------------------------------- last components

  const SLASH: byte := 47

  function Basename(path: seq<byte>): seq<byte> {
    if path == [] || path[|path| - 1] == SLASH then []
    else Basename(path[..|path| - 1]) + [path[|path| - 1]]
  }

  /** Behind the last slash, or the whole path when there is none. */
  lemma {:induction false} BasenameIs(dir: seq<byte>, name: seq<byte>)
    requires SLASH !in name && (dir == [] || dir[|dir| - 1] == SLASH)
    ensures Basename(dir + name) == name
  {
    if name == [] {
      assert dir + name == dir;
    } else {
      var n := |name| - 1;
      assert (dir + name)[..|dir + name| - 1] == dir + name[..n];
      BasenameIs(dir, name[..n]);
    }
  }

  /** Every path is a directory part, empty or with a slash at its end, and a last component
      without one. */
  lemma {:induction false} BasenameExact(path: seq<byte>) returns (dir: seq<byte>)
    ensures path == dir + Basename(path) && SLASH !in Basename(path)
    ensures dir == [] || dir[|dir| - 1] == SLASH
  {
    if path == [] || path[|path| - 1] == SLASH {
      dir := path;
    } else {
      dir := BasenameExact(path[..|path| - 1]);
    }
  }

  // ---------------------------------------------------------------- trigrams

  const KEYS: nat := 0x100_0000

  /** `(a << 16) | (b << 8) | c` */
  function Key(a: byte, b: byte, c: byte): (k: nat)
    ensures k < KEYS
  {
    a * 0x1_0000 + b * 0x100 + c
  }

  /** No two byte triples share a key. */
  lemma {:induction false} KeyInjective(a: byte, b: byte, c: byte, x: byte, y: byte, z: byte)
    requires Key(a, b, c) == Key(x, y, z)
    ensures a == x && b == y && c == z
  {
  }

  lemma {:induction false} LastDigit(q: nat, r: byte)
    ensures (q * 256 + r) / 256 == q && (q * 256 + r) % 256 == r
  {
  }

  /** The first byte counts most. */
  lemma {:induction false} KeyDigits(a: byte, b: byte, c: byte)
    ensures var k := Key(a, b, c); k / 256 / 256 == a && k / 256 % 256 == b && k % 256 == c
  {
    assert Key(a, b, c) == (a * 256 + b) * 256 + c;
    LastDigit(a * 256 + b, c);
    LastDigit(a, b);
  }

  function KeyAt(s: seq<byte>, i: nat): nat
    requires i + 3 <= |s|
  {
    Key(s[i], s[i + 1], s[i + 2])
  }

  predicate HasTrigram(s: seq<byte>, t: nat) {
    exists i :: 0 <= i < |s| - 2 && KeyAt(s, i) == t
  }

  function Windows(s: seq<byte>): (w: seq<nat>)
    ensures |w| == if |s| < 3 then 0 else |s| - 2
    ensures forall i :: 0 <= i < |w| ==> w[i] == KeyAt(s, i)
  {
    if |s| < 3 then [] else seq(|s| - 2, i requires 0 <= i < |s| - 2 => KeyAt(s, i))
  }

  ghost predicate Sorted(s: seq<nat>) {
    forall i, j :: 0 <= i < j < |s| ==> s[i] <= s[j]
  }

  function InsertSorted(x: nat, s: seq<nat>): seq<nat> {
    if s == [] || x <= s[0] then [x] + s else [s[0]] + InsertSorted(x, s[1..])
  }

  /** Stands for the library's `sort_unstable` on integers. */
  function Sort(s: seq<nat>): seq<nat> {
    if s == [] then [] else InsertSorted(s[0], Sort(s[1..]))
  }

  lemma {:induction false} InsertSortedIsSorted(x: nat, s: seq<nat>)
    requires Sorted(s)
    ensures Sorted(InsertSorted(x, s))
    ensures forall y :: y in InsertSorted(x, s) <==> y == x || y in s
  {
    if s != [] && x > s[0] {
      InsertSortedIsSorted(x, s[1..]);
      assert s == [s[0]] + s[1..];
      var r := InsertSorted(x, s[1..]);
      forall j | 0 <= j < |r| ensures s[0] <= r[j] { assert r[j] in r; }
    }
  }

  lemma {:induction false} SortIsSorted(s: seq<nat>)
    ensures Sorted(Sort(s)) && forall y :: y in Sort(s) <==> y in s
  {
    if s != [] {
      SortIsSorted(s[1..]);
      InsertSortedIsSorted(s[0], Sort(s[1..]));
      assert s == [s[0]] + s[1..];
    }
  }

  /** Removes consecutive duplicates, as the library's `dedup` does. */
  function Dedup(s: seq<nat>): seq<nat> {
    if |s| < 2 then s
    else if s[0] == s[1] then Dedup(s[1..])
    else [s[0]] + Dedup(s[1..])
  }

  lemma {:induction false} DedupAscends(s: seq<nat>)
    requires Sorted(s)
    ensures Ascending(Dedup(s)) && forall y :: y in Dedup(s) <==> y in s
    ensures s != [] ==> Dedup(s) != [] && Dedup(s)[0] == s[0]
  {
    if |s| >= 2 {
      DedupAscends(s[1..]);
      assert s == [s[0]] + s[1..];
      var r := Dedup(s[1..]);
      forall j | 0 <= j < |r| ensures s[1] <= r[j] { if j > 0 { assert r[0] < r[j]; } }
    }
  }

  function Trigrams(s: seq<byte>): seq<nat> { Dedup(Sort(Windows(s))) }

  /** The extracted keys are exactly those of the three-byte windows, each once,
      in ascending order. */
  lemma {:induction false} TrigramsExact(s: seq<byte>)
    ensures Ascending(Trigrams(s))
    ensures forall t :: t in Trigrams(s) <==> HasTrigram(s, t)
    ensures |s| >= 3 ==> Trigrams(s) != []
  {
    SortIsSorted(Windows(s));
    DedupAscends(Sort(Windows(s)));
    forall t ensures t in Windows(s) <==> HasTrigram(s, t) {
      if t in Windows(s) {
        var i :| 0 <= i < |Windows(s)| && Windows(s)[i] == t;
        assert KeyAt(s, i) == t;
      }
      if HasTrigram(s, t) {
        var i :| 0 <= i < |s| - 2 && KeyAt(s, i) == t;
        assert Windows(s)[i] == t;
      }
    }
    if |s| >= 3 { assert HasTrigram(s, KeyAt(s, 0)); }
  }

  lemma {:induction false} TrigramBound(s: seq<byte>, t: nat)
    requires HasTrigram(s, t)
    ensures t < KEYS
  {
  }

  method ExtractTrigrams(lowercased: seq<byte>) returns (out: seq<nat>)
    ensures out == Trigrams(lowercased)
  {
    if |lowercased| < 3 {
      assert Windows(lowercased) == [];
      return [];
    }
    out := [];
    for i := 0 to |lowercased| - 2
      invariant out == Windows(lowercased)[..i]
    {
      out := out + [Key(lowercased[i], lowercased[i + 1], lowercased[i + 2])];
    }
    assert out == Windows(lowercased);
    out := Dedup(Sort(out));
  }

  /** A text has every trigram of what it contains. */
  lemma {:induction false} TrigramsOfPart(hay: seq<byte>, needle: seq<byte>, t: nat)
    requires Contains(hay, needle) && HasTrigram(needle, t)
    ensures HasTrigram(hay, t)
  {
    var i :| 0 <= i <= |hay| && Occurs(hay, needle, i);
    var k :| 0 <= k < |needle| - 2 && KeyAt(needle, k) == t;
    assert hay[i..i + |needle|][k] == hay[i + k];
    assert hay[i..i + |needle|][k + 1] == hay[i + k + 1];
    assert hay[i..i + |needle|][k + 2] == hay[i + k + 2];
    assert KeyAt(hay, i + k) == t;
  }
}
