/** The wildcard matcher of the path filter, and what `*` and `?` mean. */
module Glob {
  import opened Prelude
  import opened Bytes

  const STAR: byte := 42
  const ANY: byte := 63

  // ---------------------------------------------------------------- meaning

  /** `*` stands for any run of bytes, `?` for any one byte, the rest for itself. */
  ghost predicate Match(p: seq<byte>, t: seq<byte>)
    decreases |p|
  {
    if p == [] then t == []
    else if p[0] == STAR then exists k :: 0 <= k <= |t| && Match(p[1..], t[k..])
    else t != [] && (p[0] == ANY || p[0] == t[0]) && Match(p[1..], t[1..])
  }

  /** A pattern of two parts matches what splits into a match of each. */
  lemma {:induction false} MatchConcat(p: seq<byte>, q: seq<byte>, t: seq<byte>)
    ensures Match(p + q, t) <==> exists k :: 0 <= k <= |t| && Match(p, t[..k]) && Match(q, t[k..])
  {
    if Match(p + q, t) { var k := SplitMatch(p, q, t); }
    if exists k :: 0 <= k <= |t| && Match(p, t[..k]) && Match(q, t[k..]) {
      var k :| 0 <= k <= |t| && Match(p, t[..k]) && Match(q, t[k..]);
      JoinMatch(p, q, t, k);
    }
  }

  lemma {:induction false} SplitMatch(p: seq<byte>, q: seq<byte>, t: seq<byte>) returns (k: nat)
    requires Match(p + q, t)
    ensures k <= |t| && Match(p, t[..k]) && Match(q, t[k..])
    decreases |p|
  {
    if p == [] {
      assert p + q == q && t[0..] == t;
      k := 0;
    } else {
      assert (p + q)[1..] == p[1..] + q;
      var j: nat;
      if p[0] == STAR { j :| 0 <= j <= |t| && Match((p + q)[1..], t[j..]); } else { j := 1; }
      var i := SplitMatch(p[1..], q, t[j..]);
      k := j + i;
      assert t[..k][j..] == t[j..][..i] && t[j..][i..] == t[k..];
    }
  }

  lemma {:induction false} JoinMatch(p: seq<byte>, q: seq<byte>, t: seq<byte>, k: nat)
    requires k <= |t| && Match(p, t[..k]) && Match(q, t[k..])
    ensures Match(p + q, t)
    decreases |p|
  {
    if p == [] {
      assert p + q == q && t[0..] == t;
    } else {
      assert (p + q)[1..] == p[1..] + q;
      var j: nat;
      if p[0] == STAR { j :| 0 <= j <= k && Match(p[1..], t[..k][j..]); } else { j := 1; }
      assert t[..k][j..] == t[j..][..k - j] && t[j..][k - j..] == t[k..];
      JoinMatch(p[1..], q, t[j..], k - j);
    }
  }

  /** The patterns of one sign, and those without any. */
  lemma {:induction false} SignsMatch(t: seq<byte>)
    ensures Match(Ascii("*"), t)
    ensures Match(Ascii("?"), t) <==> |t| == 1
  {
    assert Ascii("*") == [STAR] && Ascii("?") == [ANY] && [STAR][1..] == [] && [ANY][1..] == [];
    assert Match([], t[|t|..]);
  }

  lemma {:induction false} PlainMatch(p: seq<byte>, t: seq<byte>)
    requires forall c :: c in p ==> c != '*' as int && c != '?' as int
    ensures Match(p, t) <==> p == t
    decreases |p|
  {
    if p != [] {
      assert p[0] in p && forall c :: c in p[1..] ==> c in p;
      if t != [] {
        PlainMatch(p[1..], t[1..]);
        assert p == [p[0]] + p[1..] && t == [t[0]] + t[1..];
      }
    }
  }

  // ---------------------------------------------------------------- the matcher

  /** The first branch of the loop: the pattern byte takes the text byte. */
  predicate Takes(p: seq<byte>, t: seq<byte>, i: nat, j: nat)
    requires i < |p|
  {
    j < |t| && (p[i] == ANY || p[i] == t[j])
  }

  /** What the matcher decides from pattern position `i` and text position `j` on.
      A `*` that faces a `*` of the text takes just that byte. */
  predicate Accepts(p: seq<byte>, t: seq<byte>, i: nat, j: nat)
    requires i <= |p| && j <= |t|
    decreases |p| - i, |t| - j, 1
  {
    if i == |p| then j == |t|
    else if Takes(p, t, i, j) then Accepts(p, t, i + 1, j + 1)
    else p[i] == STAR && Absorbs(p, t, i + 1, j)
  }

  /** The rest of the pattern accepts at `j` or behind it. */
  predicate Absorbs(p: seq<byte>, t: seq<byte>, i: nat, j: nat)
    requires i <= |p| && j <= |t|
    decreases |p| - i, |t| - j, 2
  {
    Accepts(p, t, i, j) || (j < |t| && Absorbs(p, t, i, j + 1))
  }

  lemma {:induction false} AbsorbsAt(p: seq<byte>, t: seq<byte>, i: nat, j: nat, k: nat)
    requires i <= |p| && j <= k <= |t| && Accepts(p, t, i, k)
    ensures Absorbs(p, t, i, j)
    decreases k - j
  {
    if j < k { AbsorbsAt(p, t, i, j + 1, k); }
  }

  lemma {:induction false} AbsorbedAt(p: seq<byte>, t: seq<byte>, i: nat, j: nat) returns (k: nat)
    requires i <= |p| && j <= |t| && Absorbs(p, t, i, j)
    ensures j <= k <= |t| && Accepts(p, t, i, k)
    decreases |t| - j
  {
    if Accepts(p, t, i, j) { k := j; } else { k := AbsorbedAt(p, t, i, j + 1); }
  }

  /** From `x` to `i` the pattern took the text byte by byte, ending at `j`. */
  ghost predicate Walked(p: seq<byte>, t: seq<byte>, x: nat, i: nat, j: nat) {
    && x <= i <= |p| && i - x <= j <= |t|
    && forall m :: x <= m < i ==> (p[m] == ANY || p[m] == t[j - i + m])
  }

  /** Why one remembered star is enough: an accepting run that starts no earlier than
      the walk reaches the walk's pattern position no earlier than the walk did. */
  lemma {:induction false} WalkIsEarliest(p: seq<byte>, t: seq<byte>, x: nat, i: nat, j: nat, k: nat)
    requires Walked(p, t, x, i, j) && j - i + x <= k <= |t| && Accepts(p, t, x, k)
    ensures Absorbs(p, t, i, j)
    decreases i - x
  {
    if x == i {
      AbsorbsAt(p, t, i, j, k);
    } else if Takes(p, t, x, k) {
      WalkIsEarliest(p, t, x + 1, i, j, k + 1);
    } else {
      var later := AbsorbedAt(p, t, x + 1, k);
      WalkIsEarliest(p, t, x + 1, i, j, later);
    }
  }

  /** At a star, an alternative run accepts only what the star absorbs anyway. */
  lemma {:induction false} StarCovers(p: seq<byte>, t: seq<byte>, i: nat, j: nat)
    requires i < |p| && p[i] == STAR && j <= |t| && Absorbs(p, t, i, j)
    ensures Absorbs(p, t, i + 1, j)
  {
    var k := AbsorbedAt(p, t, i, j);
    var later := k + 1;
    if !Takes(p, t, i, k) { later := AbsorbedAt(p, t, i + 1, k); }
    AbsorbsAt(p, t, i + 1, j, later);
  }

  /** What the loop may still find: the current run, or the remembered star taking
      more of the text. */
  predicate Open(p: seq<byte>, t: seq<byte>, i: nat, j: nat, star: Option<nat>, from: nat)
    requires i <= |p| && j <= |t| && (star.Some? ==> star.value < |p|)
  {
    Accepts(p, t, i, j) || (star.Some? && from < |t| && Absorbs(p, t, star.value + 1, from + 1))
  }

  lemma {:induction false} OthersCovered(p: seq<byte>, t: seq<byte>, s: nat, from: nat, i: nat, j: nat)
    requires s < i && Walked(p, t, s + 1, i, j) && from == j - i + s + 1
    requires from < |t| && Absorbs(p, t, s + 1, from + 1)
    ensures Absorbs(p, t, i, j)
  {
    var k := AbsorbedAt(p, t, s + 1, from + 1);
    WalkIsEarliest(p, t, s + 1, i, j, k);
  }

  method GlobImpl(pat: seq<byte>, text: seq<byte>) returns (r: bool)
    ensures r == Accepts(pat, text, 0, 0)
  {
    var pi: nat, ti: nat := 0, 0;
    var starPi: Option<nat>, starTi: nat := None, 0;
    while ti < |text|
      invariant pi <= |pat| && starTi <= ti <= |text|
      invariant starPi.Some? ==>
        starPi.value < pi && Walked(pat, text, starPi.value + 1, pi, ti) && starTi == ti - pi + starPi.value + 1
      invariant Accepts(pat, text, 0, 0) == Open(pat, text, pi, ti, starPi, starTi)
      decreases |pat| - (if starPi.Some? then starPi.value + 1 else 0), |text| - starTi, |text| - ti
    {
      if pi < |pat| && (pat[pi] == ANY || pat[pi] == text[ti]) {
        pi := pi + 1;
        ti := ti + 1;
      } else if pi < |pat| && pat[pi] == STAR {
        if starPi.Some? && starTi < |text| && Absorbs(pat, text, starPi.value + 1, starTi + 1) {
          OthersCovered(pat, text, starPi.value, starTi, pi, ti);
          StarCovers(pat, text, pi, ti);
        }
        assert Open(pat, text, pi, ti, starPi, starTi) == Accepts(pat, text, pi, ti) == Absorbs(pat, text, pi + 1, ti);
        starPi := Some(pi);
        starTi := ti;
        pi := pi + 1;
      } else if starPi.Some? {
        pi := starPi.value + 1;
        starTi := starTi + 1;
        ti := starTi;
      } else {
        return false;
      }
    }
    if starPi.Some? && starTi < |text| && Absorbs(pat, text, starPi.value + 1, starTi + 1) {
      OthersCovered(pat, text, starPi.value, starTi, pi, ti);
    }
    while pi < |pat| && pat[pi] == STAR
      invariant pi <= |pat| && Accepts(pat, text, 0, 0) == Accepts(pat, text, pi, |text|)
    {
      pi := pi + 1;
    }
    return pi == |pat|;
  }

  // ---------------------------------------------------------------- agreement

  /** Whatever the matcher accepts matches. */
  lemma {:induction false} AcceptsSound(p: seq<byte>, t: seq<byte>, i: nat, j: nat)
    requires i <= |p| && j <= |t| && Accepts(p, t, i, j)
    ensures Match(p[i..], t[j..])
    decreases |p| - i
  {
    if i < |p| {
      assert p[i..][1..] == p[i + 1..] && p[i..][0] == p[i];
      if Takes(p, t, i, j) {
        AcceptsSound(p, t, i + 1, j + 1);
        assert t[j..][1..] == t[j + 1..] && t[j..][0] == t[j];
      } else {
        var k := AbsorbedAt(p, t, i + 1, j);
        AcceptsSound(p, t, i + 1, k);
        assert t[j..][k - j..] == t[k..];
      }
    }
  }

  /** Pattern and text do not both have a `*`. */
  predicate Apart(p: seq<byte>, t: seq<byte>) { STAR !in t || STAR !in p }

  /** Then whatever matches is accepted. */
  lemma {:induction false} AcceptsComplete(p: seq<byte>, t: seq<byte>, i: nat, j: nat)
    requires i <= |p| && j <= |t| && Match(p[i..], t[j..]) && Apart(p, t)
    ensures Accepts(p, t, i, j)
    decreases |p| - i
  {
    if i < |p| {
      assert p[i..][1..] == p[i + 1..] && p[i..][0] == p[i];
      if p[i] == STAR {
        var k :| 0 <= k <= |t[j..]| && Match(p[i..][1..], t[j..][k..]);
        assert t[j..][k..] == t[j + k..];
        AcceptsComplete(p, t, i + 1, j + k);
        AbsorbsAt(p, t, i + 1, j, j + k);
        assert !Takes(p, t, i, j);
      } else {
        assert t[j..][1..] == t[j + 1..] && t[j..][0] == t[j];
        AcceptsComplete(p, t, i + 1, j + 1);
      }
    }
  }

  /** The matcher decides the meaning of the pattern unless both have a `*`. */
  lemma {:induction false} GlobExact(p: seq<byte>, t: seq<byte>)
    requires Apart(p, t)
    ensures Accepts(p, t, 0, 0) <==> Match(p, t)
  {
    assert p[0..] == p && t[0..] == t;
    if Accepts(p, t, 0, 0) { AcceptsSound(p, t, 0, 0); }
    if Match(p, t) { AcceptsComplete(p, t, 0, 0); }
  }

  /** A pattern that the text `u + [STAR] + v` matches and the matcher refuses. */
  function Missed(u: seq<byte>, v: seq<byte>): seq<byte> {
    if v == [] then u + [STAR, ANY] else u + [STAR]
  }

  lemma {:induction false} LiteralMatch(u: seq<byte>, p: seq<byte>, t: seq<byte>)
    requires STAR !in u && Match(p, t)
    ensures Match(u + p, u + t)
  {
    if u == [] {
      assert u + p == p && u + t == t;
    } else {
      assert u[0] in u;
      LiteralMatch(u[1..], p, t);
      assert (u + p)[1..] == u[1..] + p && (u + t)[1..] == u[1..] + t;
    }
  }

  lemma {:induction false} LiteralWalk(u: seq<byte>, p: seq<byte>, t: seq<byte>, i: nat)
    requires i <= |u| && u <= p && u <= t
    ensures Accepts(p, t, i, i) == Accepts(p, t, |u|, |u|)
    decreases |u| - i
  {
    if i < |u| { LiteralWalk(u, p, t, i + 1); }
  }

  lemma {:induction false} MissedMatches(u: seq<byte>, v: seq<byte>)
    requires STAR !in u
    ensures Match(Missed(u, v), u + [STAR] + v)
  {
    if v == [] {
      assert [STAR][0..] == [STAR] && [STAR, ANY][1..] == [ANY];
      assert Match([], [STAR][1..]) && Match([ANY], [STAR][0..]);
      assert Match([STAR, ANY], [STAR]);
      LiteralMatch(u, [STAR, ANY], [STAR]);
      assert u + [STAR] + v == u + [STAR];
    } else {
      var t := [STAR] + v;
      assert [STAR][1..] == [] && t[|t|..] == [];
      assert Match([STAR][1..], t[|t|..]);
      LiteralMatch(u, [STAR], t);
      assert u + [STAR] + v == u + t;
    }
  }

  lemma {:induction false} MissedRefused(u: seq<byte>, v: seq<byte>)
    ensures !Accepts(Missed(u, v), u + [STAR] + v, 0, 0)
  {
    var p, t := Missed(u, v), u + [STAR] + v;
    LiteralWalk(u, p, t, 0);
    assert Takes(p, t, |u|, |u|);
    if v == [] {
      assert p[|u| + 1] == ANY && !Takes(p, t, |u| + 1, |u| + 1);
    }
  }

  /** The matcher is right about every pattern exactly on the texts without `*`. */
  lemma {:induction false} GlobExactIff(t: seq<byte>)
    ensures STAR !in t <==> forall p :: Accepts(p, t, 0, 0) == Match(p, t)
  {
    if STAR !in t {
      forall p ensures Accepts(p, t, 0, 0) == Match(p, t) { GlobExact(p, t); }
    } else {
      var i := FirstStar(t);
      var u, v := t[..i], t[i + 1..];
      assert t == u + [STAR] + v;
      MissedMatches(u, v);
      MissedRefused(u, v);
      assert Accepts(Missed(u, v), t, 0, 0) != Match(Missed(u, v), t);
    }
  }

  /** Byte by byte a text that the pattern takes literally. */
  function Literally(p: seq<byte>): (t: seq<byte>)
    ensures |t| == |p| && forall i :: 0 <= i < |p| ==> t[i] == if p[i] == ANY then OTHER else p[i]
  {
    seq(|p|, i requires 0 <= i < |p| => if p[i] == ANY then OTHER else p[i])
  }

  const OTHER: byte := 98

  lemma {:induction false} LiterallyMatches(p: seq<byte>)
    ensures Match(p, Literally(p))
  {
    if p != [] {
      var t := Literally(p);
      assert t[1..] == Literally(p[1..]) && t[1..] == t[1..][0..];
      LiterallyMatches(p[1..]);
    }
  }

  /** A star stretches: what follows may come one byte later. */
  lemma {:induction false} StarStretches(u: seq<byte>, v: seq<byte>)
    ensures Match(u + [STAR] + v, Literally(u) + [STAR, OTHER] + Literally(v))
  {
    var p, t := u + [STAR] + v, Literally(u) + [STAR, OTHER] + Literally(v);
    if u == [] {
      LiterallyMatches(v);
      assert p[1..] == v && t[2..] == Literally(v);
    } else {
      StarStretches(u[1..], v);
      assert p[1..] == u[1..] + [STAR] + v;
      assert Literally(u)[1..] == Literally(u[1..]) && t[1..] == Literally(u[1..]) + [STAR, OTHER] + Literally(v);
      assert t[1..] == t[1..][0..] && t[0] == Literally(u)[0];
    }
  }

  /** Without a star, only a text as long as the pattern is accepted. */
  lemma {:induction false} AcceptsLength(p: seq<byte>, t: seq<byte>, i: nat, j: nat)
    requires i <= |p| && j <= |t| && STAR !in p[i..] && Accepts(p, t, i, j)
    ensures |p| - i == |t| - j
    decreases |p| - i
  {
    if i < |p| {
      assert p[i..][0] == p[i] && p[i + 1..] == p[i..][1..];
      AcceptsLength(p, t, i + 1, j + 1);
    }
  }

  /** What the pattern takes literally, it takes without remembering a star. */
  lemma {:induction false} TakenLiterally(p: seq<byte>, t: seq<byte>, n: nat, i: nat)
    requires i <= n <= |p| && n <= |t| && t[..n] == Literally(p[..n])
    ensures Accepts(p, t, i, i) == Accepts(p, t, n, n)
    decreases n - i
  {
    if i < n {
      assert t[i] == t[..n][i] && p[i] == p[..n][i] && Takes(p, t, i, i);
      TakenLiterally(p, t, n, i + 1);
    }
  }

  lemma {:induction false} StretchRefused(u: seq<byte>, v: seq<byte>)
    requires STAR !in v
    ensures !Accepts(u + [STAR] + v, Literally(u) + [STAR, OTHER] + Literally(v), 0, 0)
  {
    var p, t := u + [STAR] + v, Literally(u) + [STAR, OTHER] + Literally(v);
    var n := |u| + 1;
    assert t[..n] == Literally(u) + [STAR] == Literally(p[..n]);
    TakenLiterally(p, t, n, 0);
    assert p[n..] == v;
    if Accepts(p, t, n, n) { AcceptsLength(p, t, n, n); }
  }

  /** The matcher is right about every text exactly for the patterns without `*`. */
  lemma {:induction false} PatternExactIff(p: seq<byte>)
    ensures STAR !in p <==> forall t :: Accepts(p, t, 0, 0) == Match(p, t)
  {
    if STAR !in p {
      forall t ensures Accepts(p, t, 0, 0) == Match(p, t) { GlobExact(p, t); }
    } else {
      var i := LastStar(p);
      var u, v := p[..i], p[i + 1..];
      assert p == u + [STAR] + v;
      StarStretches(u, v);
      StretchRefused(u, v);
      var t := Literally(u) + [STAR, OTHER] + Literally(v);
      assert Accepts(p, t, 0, 0) != Match(p, t);
    }
  }

  lemma {:induction false} LastStar(p: seq<byte>) returns (i: nat)
    requires STAR in p
    ensures i < |p| && p[i] == STAR && STAR !in p[i + 1..]
  {
    var n := |p| - 1;
    if p[n] == STAR {
      i := n;
    } else {
      assert p == p[..n] + [p[n]];
      i := LastStar(p[..n]);
      assert p[i + 1..] == p[..n][i + 1..] + [p[n]];
    }
  }

  lemma {:induction false} FirstStar(t: seq<byte>) returns (i: nat)
    requires STAR in t
    ensures i < |t| && t[i] == STAR && STAR !in t[..i]
  {
    i := 0;
    while t[i] != STAR
      invariant i < |t| && STAR !in t[..i] && STAR in t[i..]
      decreases |t| - i
    {
      i := i + 1;
    }
  }

  /** The shortest such case: `*` does not find the text `*b`. */
  lemma {:induction false} StarMissesStar()
    ensures Match([STAR], [STAR, 98]) && !Accepts([STAR], [STAR, 98], 0, 0)
  {
    MissedMatches([], [98]);
    MissedRefused([], [98]);
    assert [] + [STAR] + [98] == [STAR, 98] && [] + [STAR] == [STAR];
  }
}
