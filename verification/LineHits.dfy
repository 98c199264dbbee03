/** Grep-style output of one file: the lines, or the blocks of lines, that a literal
    needle matches. */
module LineHits {
  import opened Prelude
  import opened Bytes
  import opened Text
  import opened Lines

  // ---------------------------------------------------------------- matches

  /** Leftmost matches from `i` on that do not overlap, as the library finds them. */
  function FindFrom(hay: seq<byte>, needle: seq<byte>, i: nat): seq<nat>
    requires needle != []
    decreases |hay| - i
  {
    if i + |needle| > |hay| then []
    else if Occurs(hay, needle, i) then [i] + FindFrom(hay, needle, i + |needle|)
    else FindFrom(hay, needle, i + 1)
  }

  function Hay(content: seq<byte>, cs: bool): (h: seq<byte>)
    ensures |h| == |content|
  {
    if cs then content else Fold(content)
  }

  function MatchOffsets(content: seq<byte>, needle: seq<byte>, cs: bool): seq<nat> {
    if needle == [] then [] else FindFrom(Hay(content, cs), needle, 0)
  }

  /** What a match at `off` prints: its line, or the block around it. */
  function HitAt(content: seq<byte>, off: nat, context: Option<nat>): (nat, seq<byte>) {
    match context
    case Some(n) => Block(content, off, n)
    case None => (LineNumber(content, off), LineText(content, off))
  }

  /** Of the hits with one line number, the first. */
  function Emit(hit: nat -> (nat, seq<byte>), offs: seq<nat>, seen: set<nat>): seq<(nat, seq<byte>)> {
    if offs == [] then []
    else if hit(offs[0]).0 in seen then Emit(hit, offs[1..], seen)
    else [hit(offs[0])] + Emit(hit, offs[1..], seen + {hit(offs[0]).0})
  }

  /** The hits of one file. */
  function FileHits(content: seq<byte>, needle: seq<byte>, cs: bool, context: Option<nat>): seq<(nat, seq<byte>)> {
    Emit((off: nat) => HitAt(content, off, context), MatchOffsets(content, needle, cs), {})
  }

  method ComputeHit(content: seq<byte>, off: nat, context: Option<nat>) returns (no: nat, text: seq<byte>)
    ensures (no, text) == HitAt(content, off, context)
  {
    if context.Some? {
      no, text := ContextBlock(content, off, context.value);
    } else {
      no, text := LineNumber(content, off), LineText(content, off);
    }
  }

  method EmitHits(content: seq<byte>, needle: seq<byte>, cs: bool, context: Option<nat>)
    returns (out: seq<(nat, seq<byte>)>)
    ensures out == FileHits(content, needle, cs, context)
  {
    var offsets := MatchOffsets(content, needle, cs);
    out := EmitAll(content, offsets, context, (off: nat) => HitAt(content, off, context));
  }

  method EmitAll(content: seq<byte>, offsets: seq<nat>, context: Option<nat>, ghost hit: nat -> (nat, seq<byte>))
    returns (out: seq<(nat, seq<byte>)>)
    requires forall off :: hit(off) == HitAt(content, off, context)
    ensures out == Emit(hit, offsets, {})
  {
    ghost var all := Emit(hit, offsets, {});
    var seen: set<nat> := {};
    out := [];
    assert offsets[0..] == offsets;
    for i := 0 to |offsets|
      invariant all == out + Emit(hit, offsets[i..], seen)
    {
      assert offsets[i..][1..] == offsets[i + 1..];
      var no, text := ComputeHit(content, offsets[i], context);
      assert hit(offsets[i]) == (no, text);
      if no !in seen {
        ghost var rest := Emit(hit, offsets[i + 1..], seen + {no});
        assert out + ([(no, text)] + rest) == out + [(no, text)] + rest;
        seen := seen + {no};
        out := out + [(no, text)];
      }
    }
  }

  // ---------------------------------------------------------------- correctness

  lemma {:induction false} FindSound(hay: seq<byte>, needle: seq<byte>, i: nat)
    requires needle != []
    ensures forall o :: o in FindFrom(hay, needle, i) ==> o >= i && Occurs(hay, needle, o)
    ensures Ascending(FindFrom(hay, needle, i))
    decreases |hay| - i
  {
    if i + |needle| <= |hay| {
      FindSound(hay, needle, if Occurs(hay, needle, i) then i + |needle| else i + 1);
      if Occurs(hay, needle, i) {
        var rest := FindFrom(hay, needle, i + |needle|);
        forall j | 0 <= j < |rest| ensures i < rest[j] { assert rest[j] in rest; }
      }
    }
  }

  /** No occurrence is skipped unless it overlaps one that is found. */
  lemma {:induction false} FindCovers(hay: seq<byte>, needle: seq<byte>, i: nat, x: nat) returns (o: nat)
    requires needle != [] && i <= x && Occurs(hay, needle, x)
    ensures o in FindFrom(hay, needle, i) && o <= x < o + |needle|
    decreases |hay| - i
  {
    if Occurs(hay, needle, i) {
      if x < i + |needle| {
        o := i;
      } else {
        o := FindCovers(hay, needle, i + |needle|, x);
      }
    } else {
      o := FindCovers(hay, needle, i + 1, x);
    }
  }

  /** A line matches when the needle occurs in its text. */
  predicate LineHas(text: seq<byte>, needle: seq<byte>, cs: bool) { Contains(Hay(text, cs), needle) }

  ghost predicate Searchable(needle: seq<byte>) { needle != [] && NEWLINE !in needle }

  lemma {:induction false} NoNewlineInside(content: seq<byte>, needle: seq<byte>, cs: bool, o: nat, x: nat)
    requires Searchable(needle) && Occurs(Hay(content, cs), needle, o) && o <= x < o + |needle|
    ensures content[x] != NEWLINE
  {
    assert Hay(content, cs)[o..o + |needle|][x - o] == Hay(content, cs)[x];
    assert needle[x - o] in needle;
  }

  lemma {:induction false} HayOfLine(s: seq<byte>, cs: bool, from: nat, text: seq<byte>)
    requires from + |text| <= |s| && s[from..from + |text|] == text
    ensures Hay(s, cs)[from..from + |text|] == Hay(text, cs)
  {
    forall i | 0 <= i < |text| ensures Hay(s, cs)[from..from + |text|][i] == Hay(text, cs)[i] {
      assert s[from..from + |text|][i] == s[from + i];
    }
  }

  /** A match lies within its line. */
  lemma {:induction false} MatchInLine(s: seq<byte>, st: seq<nat>, ts: seq<seq<byte>>, k: nat, needle: seq<byte>,
      cs: bool, o: nat)
    requires Lined(s, st, ts) && On(st, ts, k, o) && Searchable(needle) && Occurs(Hay(s, cs), needle, o)
    ensures LineHas(ts[k], needle, cs)
  {
    assert IsLine(s, st[k], st[k + 1], ts[k], k == 0, k == |ts| - 1);
    var from, end := st[k], st[k] + |ts[k]|;
    if end < o + |needle| { NoNewlineInside(s, needle, cs, o, end); }
    HayOfLine(s, cs, from, ts[k]);
    SubSlice(Hay(s, cs), from, Hay(ts[k], cs), o - from, o - from + |needle|);
    assert Occurs(Hay(ts[k], cs), needle, o - from);
  }

  /** Overlapping matches are on one line. */
  lemma {:induction false} OverlapOnLine(s: seq<byte>, st: seq<nat>, ts: seq<seq<byte>>, k: nat, needle: seq<byte>,
      cs: bool, o: nat, x: nat)
    requires Lined(s, st, ts) && On(st, ts, k, x) && Searchable(needle)
    requires Occurs(Hay(s, cs), needle, o) && o <= x < o + |needle|
    ensures On(st, ts, k, o)
  {
    assert IsLine(s, st[k], st[k + 1], ts[k], k == 0, k == |ts| - 1);
    if o < st[k] { NoNewlineInside(s, needle, cs, o, st[k] - 1); }
  }

  lemma {:induction false} LineOccurs(s: seq<byte>, cs: bool, from: nat, text: seq<byte>, needle: seq<byte>)
    returns (x: nat)
    requires from + |text| <= |s| && s[from..from + |text|] == text && LineHas(text, needle, cs)
    ensures from <= x <= from + |text| && Occurs(Hay(s, cs), needle, x)
  {
    var hay, part := Hay(s, cs), Hay(text, cs);
    var c :| 0 <= c <= |part| && Occurs(part, needle, c);
    x := from + c;
    HayOfLine(s, cs, from, text);
    SubSlice(hay, from, part, c, c + |needle|);
  }

  /** A line that matches has one of the matches found. */
  lemma {:induction false} LineFound(s: seq<byte>, st: seq<nat>, ts: seq<seq<byte>>, k: nat, needle: seq<byte>,
      cs: bool) returns (o: nat)
    requires Lined(s, st, ts) && k < |ts| && Searchable(needle) && LineHas(ts[k], needle, cs)
    ensures o in MatchOffsets(s, needle, cs) && On(st, ts, k, o)
  {
    assert IsLine(s, st[k], st[k + 1], ts[k], k == 0, k == |ts| - 1);
    var x := LineOccurs(s, cs, st[k], ts[k], needle);
    o := FindCovers(Hay(s, cs), needle, 0, x);
    FindSound(Hay(s, cs), needle, 0);
    OverlapOnLine(s, st, ts, k, needle, cs, o, x);
  }

  /** Some match leads to `e`. */
  ghost predicate Comes(hit: nat -> (nat, seq<byte>), offs: seq<nat>, e: (nat, seq<byte>)) {
    exists o :: o in offs && hit(o) == e
  }

  /** What is emitted comes from a match, and every match shares its number with
      something emitted. */
  lemma {:induction false} EmitExact(hit: nat -> (nat, seq<byte>), offs: seq<nat>, seen: set<nat>)
    ensures forall e :: e in Emit(hit, offs, seen) ==> Comes(hit, offs, e)
    ensures forall o :: o in offs ==> hit(o).0 in seen || exists e :: e in Emit(hit, offs, seen) && e.0 == hit(o).0
  {
    if offs != [] {
      var no, rest := hit(offs[0]).0, offs[1..];
      assert offs == [offs[0]] + rest;
      var later := if no in seen then seen else seen + {no};
      EmitExact(hit, rest, later);
      var r, tail := Emit(hit, offs, seen), Emit(hit, rest, later);
      forall e | e in r ensures Comes(hit, offs, e) {
        if e in tail { var o :| o in rest && hit(o) == e; assert o in offs; }
        else { assert offs[0] in offs && hit(offs[0]) == e; }
      }
      forall o | o in offs ensures hit(o).0 in seen || exists e :: e in r && e.0 == hit(o).0 {
        if hit(o).0 !in seen {
          if hit(o).0 == no { assert hit(offs[0]) in r; }
          else { var e :| e in tail && e.0 == hit(o).0; assert e in r; }
        }
      }
    }
  }

  function Numbers(hits: seq<(nat, seq<byte>)>): (r: seq<nat>)
    ensures |r| == |hits|
  {
    seq(|hits|, i requires 0 <= i < |hits| => hits[i].0)
  }

  ghost predicate Rising(hit: nat -> (nat, seq<byte>), offs: seq<nat>) {
    forall i, j :: 0 <= i < j < |offs| ==> hit(offs[i]).0 <= hit(offs[j]).0
  }

  lemma {:induction false} EmitAbove(hit: nat -> (nat, seq<byte>), offs: seq<nat>, seen: set<nat>, low: nat)
    requires low in seen && forall o :: o in offs ==> hit(o).0 >= low
    ensures forall e :: e in Emit(hit, offs, seen) ==> e.0 > low
  {
    if offs != [] {
      var no, rest := hit(offs[0]).0, offs[1..];
      assert offs[0] in offs && forall o :: o in rest ==> o in offs;
      EmitAbove(hit, rest, if no in seen then seen else seen + {no}, low);
    }
  }

  lemma {:induction false} NumberFirst(e: (nat, seq<byte>), tail: seq<(nat, seq<byte>)>)
    requires Ascending(Numbers(tail)) && forall f :: f in tail ==> e.0 < f.0
    ensures Ascending(Numbers([e] + tail))
  {
    forall i | 0 <= i < |tail| ensures e.0 < tail[i].0 { assert tail[i] in tail; }
    assert Numbers([e] + tail) == [e.0] + Numbers(tail);
  }

  lemma {:induction false} RiseFromFirst(hit: nat -> (nat, seq<byte>), offs: seq<nat>)
    requires Rising(hit, offs) && offs != []
    ensures Rising(hit, offs[1..]) && forall o :: o in offs[1..] ==> hit(o).0 >= hit(offs[0]).0
  {
    forall o | o in offs[1..] ensures hit(o).0 >= hit(offs[0]).0 {
      var j :| 0 <= j < |offs| - 1 && offs[j + 1] == o;
    }
    forall i, j | 0 <= i < j < |offs| - 1 ensures hit(offs[1..][i]).0 <= hit(offs[1..][j]).0 {
      assert hit(offs[i + 1]).0 <= hit(offs[j + 1]).0;
    }
  }

  lemma {:induction false} EmitAscends(hit: nat -> (nat, seq<byte>), offs: seq<nat>, seen: set<nat>)
    requires Rising(hit, offs)
    ensures Ascending(Numbers(Emit(hit, offs, seen)))
  {
    if offs != [] {
      var no, rest := hit(offs[0]).0, offs[1..];
      RiseFromFirst(hit, offs);
      if no in seen {
        EmitAscends(hit, rest, seen);
      } else {
        EmitAscends(hit, rest, seen + {no});
        EmitAbove(hit, rest, seen + {no}, no);
        NumberFirst(hit(offs[0]), Emit(hit, rest, seen + {no}));
      }
    }
  }

  lemma {:induction false} NewlinesGrow(s: seq<byte>, a: nat, b: nat)
    requires a <= b <= |s|
    ensures Newlines(s[..a]) <= Newlines(s[..b])
  {
    assert s[..b] == s[..a] + s[a..b];
    NewlinesConcat(s[..a], s[a..b]);
  }

  lemma {:induction false} HitsRise(content: seq<byte>, needle: seq<byte>, cs: bool, context: Option<nat>)
    ensures Rising((off: nat) => HitAt(content, off, context), MatchOffsets(content, needle, cs))
  {
    var offs := MatchOffsets(content, needle, cs);
    if needle != [] {
      FindSound(Hay(content, cs), needle, 0);
      forall i, j | 0 <= i < j < |offs|
        ensures HitAt(content, offs[i], context).0 <= HitAt(content, offs[j], context).0
      {
        assert offs[j] in offs;
        NewlinesGrow(content, offs[i], offs[j]);
      }
    }
  }

  /** Entry `e` is a matching line with its number. */
  predicate IsHit(e: (nat, seq<byte>), ts: seq<seq<byte>>, needle: seq<byte>, cs: bool) {
    1 <= e.0 <= |ts| && e.1 == ts[e.0 - 1] && LineHas(e.1, needle, cs)
  }

  /** The lines that match, each with its number, from line `k` on. */
  function Grep(ts: seq<seq<byte>>, needle: seq<byte>, cs: bool, k: nat): seq<(nat, seq<byte>)>
    decreases |ts| - k
  {
    if k >= |ts| then []
    else (if LineHas(ts[k], needle, cs) then [(k + 1, ts[k])] else []) + Grep(ts, needle, cs, k + 1)
  }

  lemma {:induction false} GrepExact(ts: seq<seq<byte>>, needle: seq<byte>, cs: bool, k: nat)
    ensures forall e :: e in Grep(ts, needle, cs, k) <==> k < e.0 && IsHit(e, ts, needle, cs)
    ensures Ascending(Numbers(Grep(ts, needle, cs, k)))
    decreases |ts| - k
  {
    if k < |ts| {
      GrepExact(ts, needle, cs, k + 1);
      NumberFirst((k + 1, ts[k]), Grep(ts, needle, cs, k + 1));
      assert [] + Grep(ts, needle, cs, k + 1) == Grep(ts, needle, cs, k + 1);
    }
  }

  lemma {:induction false} NumbersOf(a: seq<(nat, seq<byte>)>, b: seq<(nat, seq<byte>)>)
    requires forall e :: e in a ==> e in b
    ensures forall x :: x in Numbers(a) ==> x in Numbers(b)
  {
    forall x | x in Numbers(a) ensures x in Numbers(b) {
      var i :| 0 <= i < |a| && Numbers(a)[i] == x;
      assert a[i] in b;
      var j :| 0 <= j < |b| && b[j] == a[i];
      assert Numbers(b)[j] == x;
    }
  }

  /** Ascending lists of numbered texts with the same members are equal. */
  lemma {:induction false} SameHits(a: seq<(nat, seq<byte>)>, b: seq<(nat, seq<byte>)>)
    requires Ascending(Numbers(a)) && Ascending(Numbers(b))
    requires forall e :: e in a <==> e in b
    ensures a == b
  {
    NumbersOf(a, b);
    NumbersOf(b, a);
    AscendingUnique(Numbers(a), Numbers(b));
    forall i | 0 <= i < |a| ensures a[i] == b[i] {
      assert a[i] in b;
      var j :| 0 <= j < |b| && b[j] == a[i];
      assert Numbers(b)[j] == Numbers(a)[i] == Numbers(b)[i];
    }
  }

  lemma {:induction false} HitUnique(e: (nat, seq<byte>), f: (nat, seq<byte>), ts: seq<seq<byte>>, needle: seq<byte>,
      cs: bool)
    requires IsHit(e, ts, needle, cs) && IsHit(f, ts, needle, cs) && e.0 == f.0
    ensures e == f
  {
    assert e == (e.0, e.1) && f == (f.0, f.1);
  }

  lemma {:induction false} LineEmitted(hit: nat -> (nat, seq<byte>), offs: seq<nat>, ts: seq<seq<byte>>,
      needle: seq<byte>, cs: bool, e: (nat, seq<byte>))
    requires forall o :: o in offs ==> IsHit(hit(o), ts, needle, cs)
    requires IsHit(e, ts, needle, cs) && Comes(hit, offs, e)
    ensures e in Emit(hit, offs, {})
  {
    EmitExact(hit, offs, {});
    var o :| o in offs && hit(o) == e;
    var f :| f in Emit(hit, offs, {}) && f.0 == e.0;
    var p :| p in offs && hit(p) == f;
    HitUnique(e, f, ts, needle, cs);
  }

  /** When the matches lead to all matching lines and to no others, each of these is
      emitted once, in order. */
  lemma {:induction false} EmitIsGrep(hit: nat -> (nat, seq<byte>), offs: seq<nat>, ts: seq<seq<byte>>,
      needle: seq<byte>, cs: bool)
    requires Rising(hit, offs) && forall o :: o in offs ==> IsHit(hit(o), ts, needle, cs)
    requires forall e :: IsHit(e, ts, needle, cs) ==> Comes(hit, offs, e)
    ensures Emit(hit, offs, {}) == Grep(ts, needle, cs, 0)
  {
    var hits, lines := Emit(hit, offs, {}), Grep(ts, needle, cs, 0);
    EmitAscends(hit, offs, {});
    EmitExact(hit, offs, {});
    GrepExact(ts, needle, cs, 0);
    forall e | e in hits ensures e in lines {
      var o :| o in offs && hit(o) == e;
    }
    forall e | e in lines ensures e in hits { LineEmitted(hit, offs, ts, needle, cs, e); }
    SameHits(hits, lines);
  }

  lemma {:induction false} LineComes(s: seq<byte>, st: seq<nat>, ts: seq<seq<byte>>, needle: seq<byte>, cs: bool,
      hit: nat -> (nat, seq<byte>), e: (nat, seq<byte>))
    requires Lined(s, st, ts) && Searchable(needle) && forall off :: hit(off) == HitAt(s, off, None)
    requires IsHit(e, ts, needle, cs)
    ensures Comes(hit, MatchOffsets(s, needle, cs), e)
  {
    var k: nat := e.0 - 1;
    var o := LineFound(s, st, ts, k, needle, cs);
    LineHitAt(s, st, ts, k, o);
    HitUnique(e, (k + 1, ts[k]), ts, needle, cs);
  }

  lemma {:induction false} MatchesAreLines(s: seq<byte>, st: seq<nat>, ts: seq<seq<byte>>, needle: seq<byte>,
      cs: bool, hit: nat -> (nat, seq<byte>))
    requires Lined(s, st, ts) && Searchable(needle) && forall off :: hit(off) == HitAt(s, off, None)
    ensures forall o :: o in MatchOffsets(s, needle, cs) ==> IsHit(hit(o), ts, needle, cs)
  {
    FindSound(Hay(s, cs), needle, 0);
    forall o | o in MatchOffsets(s, needle, cs) ensures IsHit(hit(o), ts, needle, cs) {
      var k := LineHitSound(s, st, ts, needle, cs, o);
    }
  }

  /** Line mode prints each line that contains the needle once, in order, with its
      number and text, although the search skips overlapping matches. */
  lemma {:induction false} LineModeIsGrep(content: seq<byte>, needle: seq<byte>, cs: bool)
    requires Searchable(needle)
    ensures FileHits(content, needle, cs, None) == Grep(Texts(Pieces(content)), needle, cs, 0)
  {
    var hit := (off: nat) => HitAt(content, off, None);
    PiecesLined(content);
    HitsRise(content, needle, cs, None);
    var st, ts := Starts(Pieces(content)), Texts(Pieces(content));
    MatchesAreLines(content, st, ts, needle, cs, hit);
    forall e | IsHit(e, ts, needle, cs) ensures Comes(hit, MatchOffsets(content, needle, cs), e) {
      LineComes(content, st, ts, needle, cs, hit, e);
    }
    EmitIsGrep(hit, MatchOffsets(content, needle, cs), Texts(Pieces(content)), needle, cs);
  }

  lemma {:induction false} LineHitAt(s: seq<byte>, st: seq<nat>, ts: seq<seq<byte>>, k: nat, o: nat)
    requires Lined(s, st, ts) && On(st, ts, k, o)
    ensures HitAt(s, o, None) == (k + 1, ts[k]) && LineNumber(s, o) == k + 1
  {
    assert IsLine(s, st[k], st[k + 1], ts[k], k == 0, k == |ts| - 1);
    NewlinesBefore(s, st, ts, k);
    SubSlice(s, st[k], ts[k], 0, o - st[k]);
    NewlinesRun(s, st[k], o);
    TextOfLine(s, st, ts, o);
  }

  lemma {:induction false} LineHitSound(s: seq<byte>, st: seq<nat>, ts: seq<seq<byte>>, needle: seq<byte>, cs: bool,
      o: nat) returns (k: nat)
    requires Lined(s, st, ts) && Searchable(needle) && Occurs(Hay(s, cs), needle, o)
    ensures k < |ts| && HitAt(s, o, None) == (k + 1, ts[k]) && LineHas(ts[k], needle, cs)
  {
    k := LineOf(s, st, ts, o);
    LineHitAt(s, st, ts, k, o);
    MatchInLine(s, st, ts, k, needle, cs, o);
  }

  /** The block of a match is the one around its line. */
  lemma {:induction false} BlockHitAt(s: seq<byte>, ps: seq<seq<byte>>, k: nat, o: nat, n: nat)
    requires ps == Pieces(s) && On(Starts(ps), Texts(ps), k, o)
    ensures HitAt(s, o, Some(n)) == Around(ps, k, n)
  {
    PiecesLined(s);
    LineHitAt(s, Starts(ps), Texts(ps), k, o);
  }

  /** Hits that are all blocks around matching lines: whatever is emitted is one. */
  lemma {:induction false} BlocksSound(content: seq<byte>, ps: seq<seq<byte>>, needle: seq<byte>, cs: bool, n: nat,
      e: (nat, seq<byte>)) returns (j: nat)
    requires Searchable(needle) && ps == Pieces(content) && e in FileHits(content, needle, cs, Some(n))
    ensures j < |ps| && LineHas(Texts(ps)[j], needle, cs) && e == Around(ps, j, n)
  {
    var offs := MatchOffsets(content, needle, cs);
    EmitExact((off: nat) => HitAt(content, off, Some(n)), offs, {});
    var o: nat :| o in offs && HitAt(content, o, Some(n)) == e;
    FindSound(Hay(content, cs), needle, 0);
    PiecesLined(content);
    var st, ts := Starts(ps), Texts(ps);
    j := LineOf(content, st, ts, o);
    MatchInLine(content, st, ts, j, needle, cs, o);
    BlockHitAt(content, ps, j, o, n);
  }

  lemma {:induction false} BlockEmitted(content: seq<byte>, ps: seq<seq<byte>>, needle: seq<byte>, cs: bool, n: nat,
      k: nat) returns (e: (nat, seq<byte>))
    requires Searchable(needle) && ps == Pieces(content) && k < |ps| && LineHas(Texts(ps)[k], needle, cs)
    ensures e in FileHits(content, needle, cs, Some(n)) && e.0 == Below(k, n) + 1
  {
    PiecesLined(content);
    var offs := MatchOffsets(content, needle, cs);
    var o := LineFound(content, Starts(ps), Texts(ps), k, needle, cs);
    BlockHitAt(content, ps, k, o, n);
    var hit := (off: nat) => HitAt(content, off, Some(n));
    EmitExact(hit, offs, {});
    e :| e in Emit(hit, offs, {}) && e.0 == hit(o).0;
  }

  /** With context, every block printed is the one around some matching line, and
      every matching line is inside some block that is printed. */
  lemma {:induction false} BlocksCover(content: seq<byte>, ps: seq<seq<byte>>, needle: seq<byte>, cs: bool, n: nat,
      k: nat) returns (j: nat)
    requires Searchable(needle) && ps == Pieces(content) && k < |ps| && LineHas(Texts(ps)[k], needle, cs)
    ensures j < |ps| && Around(ps, j, n) in FileHits(content, needle, cs, Some(n))
    ensures Below(j, n) <= k < Clamp(j + n + 1, |ps|)
  {
    var e := BlockEmitted(content, ps, needle, cs, n, k);
    j := BlocksSound(content, ps, needle, cs, n, e);
  }

  /** Blocks are printed in the order of their first lines, no two with the same. */
  lemma {:induction false} BlocksAscend(content: seq<byte>, needle: seq<byte>, cs: bool, n: nat)
    ensures Ascending(Numbers(FileHits(content, needle, cs, Some(n))))
  {
    HitsRise(content, needle, cs, Some(n));
    EmitAscends((off: nat) => HitAt(content, off, Some(n)), MatchOffsets(content, needle, cs), {});
  }
}
