/** Lines of a file: the number and the text of the line at an offset, and the block
    of lines around it. */
module Lines {
  import opened Prelude
  import opened Bytes

  const NEWLINE: byte := 10

  // ---------------------------------------------------------------- what a line is

  function Position(s: seq<byte>): (r: Option<nat>)
    ensures r.None? ==> NEWLINE !in s
    ensures r.Some? ==> r.value < |s| && s[r.value] == NEWLINE && NEWLINE !in s[..r.value]
  {
    if s == [] then None
    else if s[0] == NEWLINE then Some(0)
    else
      assert s == [s[0]] + s[1..];
      match Position(s[1..])
      case None => None
      case Some(i) =>
        assert s[..i + 1] == [s[0]] + s[1..][..i];
        Some(i + 1)
  }

  function LastPosition(s: seq<byte>): (r: Option<nat>)
    ensures r.None? ==> NEWLINE !in s
    ensures r.Some? ==> r.value < |s| && s[r.value] == NEWLINE && NEWLINE !in s[r.value + 1..]
  {
    if s == [] then None
    else if s[|s| - 1] == NEWLINE then Some(|s| - 1)
    else
      var front := s[..|s| - 1];
      assert s == front + [s[|s| - 1]];
      match LastPosition(front)
      case None => None
      case Some(i) =>
        assert s[i + 1..] == front[i + 1..] + [s[|s| - 1]];
        Some(i)
  }

  lemma {:induction false} PositionAt(s: seq<byte>, i: nat)
    requires i < |s| && s[i] == NEWLINE && NEWLINE !in s[..i]
    ensures Position(s) == Some(i)
  {
    if i > 0 {
      assert s[..i][0] == s[0] && s[..i][1..] == s[1..][..i - 1];
      PositionAt(s[1..], i - 1);
    }
  }

  lemma {:induction false} LastPositionAt(s: seq<byte>, i: nat)
    requires i < |s| && s[i] == NEWLINE && NEWLINE !in s[i + 1..]
    ensures LastPosition(s) == Some(i)
  {
    var n := |s| - 1;
    if i < n {
      assert s[i + 1..][n - i - 1] == s[n] && s[i + 1..][..n - i - 1] == s[..n][i + 1..];
      LastPositionAt(s[..n], i);
    }
  }

  lemma {:induction false} NoPosition(s: seq<byte>)
    requires NEWLINE !in s
    ensures Position(s) == None && LastPosition(s) == None
  {
  }

  function Newlines(s: seq<byte>): nat {
    if s == [] then 0 else Newlines(s[..|s| - 1]) + if s[|s| - 1] == NEWLINE then 1 else 0
  }

  /** The lines of a file with their terminators; the last one has none. */
  function Pieces(s: seq<byte>): (ps: seq<seq<byte>>)
    decreases |s|
  {
    match Position(s)
    case None => [s]
    case Some(i) => [s[..i + 1]] + Pieces(s[i + 1..])
  }

  /** Lines end at newlines and nowhere else. */
  lemma {:induction false} NewlineEnds(line: seq<byte>, rest: seq<byte>)
    requires forall c :: c in line ==> c != '\n' as int
    ensures Pieces(line) == [line]
    ensures Pieces(line + Ascii("\n") + rest) == [line + Ascii("\n")] + Pieces(rest)
  {
    var s, n := line + Ascii("\n") + rest, |line|;
    NoPosition(line);
    assert s[n] == NEWLINE && s[..n] == line;
    PositionAt(s, n);
    assert s[..n + 1] == line + Ascii("\n") && s[n + 1..] == rest;
  }

  function Flatten(ps: seq<seq<byte>>): seq<byte> {
    if ps == [] then [] else ps[0] + Flatten(ps[1..])
  }

  /** A line without its terminator. */
  function Bare(piece: seq<byte>): seq<byte> {
    if piece != [] && piece[|piece| - 1] == NEWLINE then piece[..|piece| - 1] else piece
  }

  ghost predicate Terminated(piece: seq<byte>) {
    piece != [] && piece[|piece| - 1] == NEWLINE && NEWLINE !in piece[..|piece| - 1]
  }

  /** One terminator at the end of every line but the last, and none elsewhere. */
  ghost predicate Shaped(ps: seq<seq<byte>>) {
    && ps != [] && NEWLINE !in ps[|ps| - 1]
    && forall i :: 0 <= i < |ps| - 1 ==> Terminated(ps[i])
  }

  lemma {:induction false} ShapedBehind(first: seq<byte>, rest: seq<seq<byte>>)
    requires Terminated(first) && Shaped(rest)
    ensures Shaped([first] + rest)
  {
    var ps := [first] + rest;
    assert ps[|ps| - 1] == rest[|rest| - 1];
    forall i | 0 <= i < |ps| - 1 ensures Terminated(ps[i]) {
      if i > 0 { assert ps[i] == rest[i - 1]; }
    }
  }

  /** Splitting loses nothing. */
  lemma {:induction false} PiecesExact(s: seq<byte>)
    ensures Shaped(Pieces(s)) && Flatten(Pieces(s)) == s
    decreases |s|
  {
    match Position(s)
    case None =>
      assert [s][1..] == [] && s + [] == s;
    case Some(i) =>
      PiecesExact(s[i + 1..]);
      var rest := Pieces(s[i + 1..]);
      assert s[..i + 1][..i] == s[..i] && s[..i + 1] + s[i + 1..] == s;
      assert ([s[..i + 1]] + rest)[1..] == rest;
      ShapedBehind(s[..i + 1], rest);
  }

  /** Where line `k` starts, counting from zero; behind the last line, the end. */
  function Start(ps: seq<seq<byte>>, k: nat): nat
    requires k <= |ps|
  {
    if k == 0 then 0 else |ps[0]| + Start(ps[1..], k - 1)
  }

  lemma {:induction false} PieceAt(ps: seq<seq<byte>>, k: nat)
    requires k < |ps|
    ensures Start(ps, k + 1) == Start(ps, k) + |ps[k]| <= |Flatten(ps)|
    ensures Flatten(ps)[Start(ps, k)..Start(ps, k + 1)] == ps[k]
    decreases |ps|
  {
    if k > 0 {
      PieceAt(ps[1..], k - 1);
      var rest := Flatten(ps[1..]);
      assert Flatten(ps)[|ps[0]|..|ps[0]| + |rest|] == rest;
      SubSlice(Flatten(ps), |ps[0]|, rest, Start(ps[1..], k - 1), Start(ps[1..], k));
    }
  }

  lemma {:induction false} StartsGrow(ps: seq<seq<byte>>, a: nat, b: nat)
    requires a <= b <= |ps|
    ensures Start(ps, a) <= Start(ps, b) <= |Flatten(ps)|
    ensures Flatten(ps)[Start(ps, a)..Start(ps, b)] == Flatten(ps[a..b])
    decreases b - a
  {
    if a == b {
      if a > 0 { PieceAt(ps, a - 1); }
    } else {
      PieceAt(ps, a);
      StartsGrow(ps, a + 1, b);
      var s := Flatten(ps);
      assert ps[a..b][1..] == ps[a + 1..b];
      assert s[Start(ps, a)..Start(ps, b)] == s[Start(ps, a)..Start(ps, a + 1)] + s[Start(ps, a + 1)..Start(ps, b)];
    }
  }

  lemma {:induction false} WholeStart(ps: seq<seq<byte>>)
    ensures Start(ps, |ps|) == |Flatten(ps)|
  {
    if ps != [] { WholeStart(ps[1..]); }
  }

  /** A line of `s` from `from`, with the next one at `next`: no newline in its text,
      one before it and one behind it. */
  ghost predicate IsLine(s: seq<byte>, from: nat, next: nat, text: seq<byte>, first: bool, last: bool) {
    var end := from + |text|;
    && end <= |s| && s[from..end] == text && NEWLINE !in text
    && (if first then from == 0 else 0 < from && s[from - 1] == NEWLINE)
    && (if last then end == |s| == next else end < |s| && s[end] == NEWLINE && next == end + 1)
  }

  lemma {:induction false} PieceEnds(s: seq<byte>, at: nat, piece: seq<byte>)
    requires at + |piece| <= |s| && s[at..at + |piece|] == piece && Terminated(piece)
    ensures var end := at + |piece| - 1;
            && |Bare(piece)| == |piece| - 1 && NEWLINE !in Bare(piece)
            && s[end] == NEWLINE && s[at..end] == Bare(piece)
  {
    SubSlice(s, at, piece, 0, |piece| - 1);
    assert s[at..at + |piece|][|piece| - 1] == s[at + |piece| - 1];
  }

  lemma {:induction false} LastBare(piece: seq<byte>)
    requires NEWLINE !in piece
    ensures Bare(piece) == piece
  {
    if piece != [] { assert piece[|piece| - 1] in piece; }
  }

  lemma {:induction false} BeforeStart(s: seq<byte>, ps: seq<seq<byte>>, k: nat)
    requires Shaped(ps) && Flatten(ps) == s && 0 < k < |ps|
    ensures 0 < Start(ps, k) <= |s| && s[Start(ps, k) - 1] == NEWLINE
  {
    PieceAt(ps, k - 1);
    assert Terminated(ps[k - 1]);
    PieceEnds(s, Start(ps, k - 1), ps[k - 1]);
  }

  lemma {:induction false} LineAt(s: seq<byte>, ps: seq<seq<byte>>, k: nat, from: nat, next: nat)
    requires Shaped(ps) && Flatten(ps) == s && k < |ps| && from == Start(ps, k) && next == Start(ps, k + 1)
    ensures IsLine(s, from, next, Bare(ps[k]), k == 0, k == |ps| - 1)
  {
    PieceAt(ps, k);
    if k > 0 { BeforeStart(s, ps, k); }
    if k < |ps| - 1 {
      assert Terminated(ps[k]);
      PieceEnds(s, from, ps[k]);
    } else {
      WholeStart(ps);
      LastBare(ps[k]);
    }
  }

  function Starts(ps: seq<seq<byte>>): (st: seq<nat>)
    ensures |st| == |ps| + 1
  {
    seq(|ps| + 1, k requires 0 <= k <= |ps| => Start(ps, k))
  }

  function Texts(ps: seq<seq<byte>>): (ts: seq<seq<byte>>)
    ensures |ts| == |ps|
  {
    seq(|ps|, k requires 0 <= k < |ps| => Bare(ps[k]))
  }

  /** The lines of `s` start at `st`, the last entry being its end, and read `ts`. */
  ghost predicate Lined(s: seq<byte>, st: seq<nat>, ts: seq<seq<byte>>) {
    && ts != [] && |st| == |ts| + 1
    && forall k {:trigger ts[k]} :: 0 <= k < |ts| ==> IsLine(s, st[k], st[k + 1], ts[k], k == 0, k == |ts| - 1)
  }

  lemma {:induction false} PiecesLined(s: seq<byte>)
    ensures Lined(s, Starts(Pieces(s)), Texts(Pieces(s)))
  {
    var ps := Pieces(s);
    PiecesExact(s);
    var st, ts := Starts(ps), Texts(ps);
    forall k {:trigger ts[k]} | 0 <= k < |ts| ensures IsLine(s, st[k], st[k + 1], ts[k], k == 0, k == |ts| - 1) {
      LineAt(s, ps, k, st[k], st[k + 1]);
    }
  }

  lemma {:induction false} NewlinesConcat(a: seq<byte>, b: seq<byte>)
    ensures Newlines(a + b) == Newlines(a) + Newlines(b)
    decreases |b|
  {
    if b == [] {
      assert a + b == a;
    } else {
      assert (a + b)[..|a + b| - 1] == a + b[..|b| - 1];
      NewlinesConcat(a, b[..|b| - 1]);
    }
  }

  lemma {:induction false} NoNewlines(b: seq<byte>)
    requires NEWLINE !in b
    ensures Newlines(b) == 0
  {
    if b != [] { NoNewlines(b[..|b| - 1]); }
  }

  lemma {:induction false} NewlinesRun(s: seq<byte>, a: nat, b: nat)
    requires a <= b <= |s| && NEWLINE !in s[a..b]
    ensures Newlines(s[..b]) == Newlines(s[..a])
  {
    assert s[..b] == s[..a] + s[a..b];
    NewlinesConcat(s[..a], s[a..b]);
    NoNewlines(s[a..b]);
  }

  lemma {:induction false} NewlineStep(s: seq<byte>, e: nat)
    requires e < |s| && s[e] == NEWLINE
    ensures Newlines(s[..e + 1]) == Newlines(s[..e]) + 1
  {
    assert s[..e + 1][..e] == s[..e];
  }

  /** As many newlines stand before line `k` as there are lines before it. */
  lemma {:induction false} NewlinesBefore(s: seq<byte>, st: seq<nat>, ts: seq<seq<byte>>, k: nat)
    requires Lined(s, st, ts) && k < |ts|
    ensures st[k] <= |s| && Newlines(s[..st[k]]) == k
  {
    assert IsLine(s, st[k], st[k + 1], ts[k], k == 0, k == |ts| - 1);
    if k > 0 {
      var j := k - 1;
      assert IsLine(s, st[j], st[j + 1], ts[j], j == 0, j == |ts| - 1);
      NewlinesBefore(s, st, ts, j);
      var end := st[j] + |ts[j]|;
      NewlinesRun(s, st[j], end);
      NewlineStep(s, end);
    }
  }

  /** Offset `off` is on line `k`. */
  ghost predicate On(st: seq<nat>, ts: seq<seq<byte>>, k: nat, off: nat) {
    k < |ts| < |st| && st[k] <= off <= st[k] + |ts[k]|
  }

  /** The line that an offset is on. */
  lemma {:induction false} LineOf(s: seq<byte>, st: seq<nat>, ts: seq<seq<byte>>, off: nat) returns (k: nat)
    requires Lined(s, st, ts) && off <= |s|
    ensures On(st, ts, k, off) && Newlines(s[..off]) == k
  {
    k := FindLine(s, st, ts, off);
    NewlinesBefore(s, st, ts, k);
    var from := st[k];
    assert IsLine(s, st[k], st[k + 1], ts[k], k == 0, k == |ts| - 1);
    SubSlice(s, from, ts[k], 0, off - from);
    NewlinesRun(s, from, off);
  }

  lemma {:induction false} FindLine(s: seq<byte>, st: seq<nat>, ts: seq<seq<byte>>, off: nat) returns (k: nat)
    requires Lined(s, st, ts) && off <= |s|
    ensures On(st, ts, k, off)
  {
    k := 0;
    assert IsLine(s, st[0], st[1], ts[0], true, 0 == |ts| - 1);
    while off > st[k] + |ts[k]|
      invariant k < |ts| && st[k] <= off
      decreases |ts| - k
    {
      assert IsLine(s, st[k], st[k + 1], ts[k], k == 0, k == |ts| - 1);
      k := k + 1;
    }
  }

  // ---------------------------------------------------------------- the helpers

  function Clamp(off: nat, len: nat): nat { if off < len then off else len }

  /** 1-based number of the line that holds `off`. */
  function LineNumber(content: seq<byte>, off: nat): nat {
    Newlines(content[..Clamp(off, |content|)]) + 1
  }

  function StartOfLine(content: seq<byte>, up: nat): nat
    requires up <= |content|
  {
    match LastPosition(content[..up]) case Some(i) => i + 1 case None => 0
  }

  function LineText(content: seq<byte>, off: nat): seq<byte> {
    var up := Clamp(off, |content|);
    var start := StartOfLine(content, up);
    var end := match Position(content[up..]) case Some(i) => up + i case None => |content|;
    content[start..end]
  }

  /** Searching backwards from a place on line `k` stops at its start. */
  lemma {:induction false} BackToStart(s: seq<byte>, st: seq<nat>, ts: seq<seq<byte>>, k: nat, up: nat)
    requires Lined(s, st, ts) && On(st, ts, k, up)
    ensures up <= |s| && StartOfLine(s, up) == st[k]
    ensures if k > 0 then LastPosition(s[..up]) == Some(st[k] - 1) else LastPosition(s[..up]) == None && st[k] == 0
  {
    assert IsLine(s, st[k], st[k + 1], ts[k], k == 0, k == |ts| - 1);
    var from := st[k];
    SubSlice(s, from, ts[k], 0, up - from);
    assert s[..up][from..] == ts[k][..up - from];
    if k > 0 {
      LastPositionAt(s[..up], from - 1);
    } else {
      NoPosition(s[..up]);
    }
  }

  /** Searching forwards from a place on line `k` stops at its end. */
  lemma {:induction false} OnToEnd(s: seq<byte>, st: seq<nat>, ts: seq<seq<byte>>, k: nat, up: nat)
    requires Lined(s, st, ts) && On(st, ts, k, up)
    ensures up <= |s|
    ensures var end := st[k] + |ts[k]|;
            if k < |ts| - 1 then Position(s[up..]) == Some(end - up) && st[k + 1] == end + 1
            else Position(s[up..]) == None && st[k + 1] == end == |s|
  {
    assert IsLine(s, st[k], st[k + 1], ts[k], k == 0, k == |ts| - 1);
    var from, end := st[k], st[k] + |ts[k]|;
    SubSlice(s, from, ts[k], up - from, end - from);
    assert s[up..][..end - up] == ts[k][up - from..];
    if k < |ts| - 1 {
      PositionAt(s[up..], end - up);
    } else {
      assert s[up..] == s[up..][..end - up];
      NoPosition(s[up..]);
    }
  }

  lemma {:induction false} TextOfLine(s: seq<byte>, st: seq<nat>, ts: seq<seq<byte>>, off: nat)
    requires Lined(s, st, ts)
    ensures 1 <= LineNumber(s, off) <= |ts| && LineText(s, off) == ts[LineNumber(s, off) - 1]
  {
    var up := Clamp(off, |s|);
    var k := LineOf(s, st, ts, up);
    BackToStart(s, st, ts, k, up);
    OnToEnd(s, st, ts, k, up);
    assert IsLine(s, st[k], st[k + 1], ts[k], k == 0, k == |ts| - 1);
  }

  /** The text of a match is that of its line. */
  lemma {:induction false} LineTextExact(content: seq<byte>, off: nat)
    ensures 1 <= LineNumber(content, off) <= |Pieces(content)|
    ensures LineText(content, off) == Bare(Pieces(content)[LineNumber(content, off) - 1])
  {
    PiecesLined(content);
    TextOfLine(content, Starts(Pieces(content)), Texts(Pieces(content)), off);
  }

  function Below(k: nat, n: nat): nat { if k < n then 0 else k - n }

  /** Lines `k - n` to `k + n`, as far as they exist: the 1-based number of the first
      one, and their text. */
  function Around(ps: seq<seq<byte>>, k: nat, n: nat): (nat, seq<byte>)
    requires k < |ps|
  {
    (Below(k, n) + 1, Flatten(ps[Below(k, n)..Clamp(k + n + 1, |ps|)]))
  }

  function Block(content: seq<byte>, off: nat, n: nat): (nat, seq<byte>) {
    LineTextExact(content, off);
    Around(Pieces(content), LineNumber(content, off) - 1, n)
  }

  /** The lines from `a` up to `b`, found by their offsets. */
  lemma {:induction false} BlockAt(content: seq<byte>, a: nat, b: nat)
    requires a <= b <= |Pieces(content)|
    ensures var ps, st := Pieces(content), Starts(Pieces(content));
            st[a] <= st[b] <= |content| && content[st[a]..st[b]] == Flatten(ps[a..b])
  {
    PiecesExact(content);
    StartsGrow(Pieces(content), a, b);
  }

  lemma {:induction false} BlockFound(content: seq<byte>, off: nat, n: nat, k: nat, from: nat, to: nat)
    requires var ps := Pieces(content);
             k < |ps| && LineNumber(content, off) == k + 1
             && from == Starts(ps)[Below(k, n)] && to == Starts(ps)[Clamp(k + n + 1, |ps|)]
    ensures from <= to <= |content| && Block(content, off, n) == (Newlines(content[..from]) + 1, content[from..to])
  {
    PiecesLined(content);
    BlockAt(content, Below(k, n), Clamp(k + n + 1, |Pieces(content)|));
    NewlinesBefore(content, Starts(Pieces(content)), Texts(Pieces(content)), Below(k, n));
  }

  method ContextBlock(content: seq<byte>, off: nat, n: nat) returns (first: nat, block: seq<byte>)
    ensures (first, block) == Block(content, off, n)
  {
    var up := Clamp(off, |content|);
    ghost var st, ts := Starts(Pieces(content)), Texts(Pieces(content));
    PiecesLined(content);
    ghost var k := LineOf(content, st, ts, up);
    BackToStart(content, st, ts, k, up);
    OnToEnd(content, st, ts, k, up);
    var blockStart := WalkBack(content, StartOfLine(content, up), n, st, ts, k);
    var next := Position(content[up..]);
    var lineEnd: nat := if next.Some? then up + next.value + 1 else |content|;
    var blockEnd := WalkOn(content, lineEnd, n, st, ts, k);
    BlockFound(content, off, n, k, blockStart, blockEnd);
    first := Newlines(content[..blockStart]) + 1;
    block := content[blockStart..blockEnd];
  }

  /** From the start of line `k` to the start of the `n`-th line before it. */
  method WalkBack(content: seq<byte>, lineStart: nat, n: nat, ghost st: seq<nat>, ghost ts: seq<seq<byte>>,
      ghost k: nat)
    returns (blockStart: nat)
    requires Lined(content, st, ts) && k < |ts| && lineStart == st[k]
    ensures blockStart == st[Below(k, n)]
  {
    blockStart := lineStart;
    for i := 0 to n
      invariant blockStart == st[Below(k, i)]
    {
      ghost var j := Below(k, i);
      assert IsLine(content, st[j], st[j + 1], ts[j], j == 0, j == |ts| - 1);
      if blockStart == 0 { return; }
      ghost var before := j - 1;
      assert IsLine(content, st[before], st[before + 1], ts[before], before == 0, before == |ts| - 1);
      BackToStart(content, st, ts, before, blockStart - 1);
      match LastPosition(content[..blockStart - 1]) {
        case Some(p) => blockStart := p + 1;
        case None =>
          blockStart := 0;
          return;
      }
    }
  }

  /** From the end of line `k` to the end of the `n`-th line behind it. */
  method WalkOn(content: seq<byte>, lineEnd: nat, n: nat, ghost st: seq<nat>, ghost ts: seq<seq<byte>>, ghost k: nat)
    returns (blockEnd: nat)
    requires Lined(content, st, ts) && k < |ts| && lineEnd == st[k + 1]
    ensures blockEnd == st[Clamp(k + n + 1, |ts|)]
  {
    blockEnd := lineEnd;
    ghost var last := |ts| - 1;
    assert IsLine(content, st[last], st[last + 1], ts[last], last == 0, true);
    for i := 0 to n
      invariant blockEnd == st[Clamp(k + i + 1, |ts|)]
    {
      ghost var j := Clamp(k + i + 1, |ts|);
      if blockEnd >= |content| {
        ReachesEnd(content, st, ts, j);
        return;
      }
      assert IsLine(content, st[j], st[j + 1], ts[j], j == 0, j == |ts| - 1);
      OnToEnd(content, st, ts, j, blockEnd);
      match Position(content[blockEnd..]) {
        case Some(p) => blockEnd := blockEnd + p + 1;
        case None =>
          blockEnd := |content|;
          return;
      }
    }
  }

  /** Only the last, empty line starts at the end of the file. */
  lemma {:induction false} ReachesEnd(s: seq<byte>, st: seq<nat>, ts: seq<seq<byte>>, j: nat)
    requires Lined(s, st, ts) && j <= |ts| && st[j] >= |s|
    ensures j >= |ts| - 1 && st[j] == |s| == st[|ts|]
  {
    var last := |ts| - 1;
    assert IsLine(s, st[last], st[last + 1], ts[last], last == 0, true);
    if j <= last { assert IsLine(s, st[j], st[j + 1], ts[j], j == 0, j == last); }
  }
}
