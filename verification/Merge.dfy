/** The result map of a query: how the hits of the layers come together by path, and
    what a cap leaves of them. */
module Merge {
  import opened Prelude
  import opened Bytes
  import opened Records

  type Path = seq<byte>

  type Row = (Path, LiteMeta)

  type Metas = map<Path, LiteMeta>

  /** Which layers a path was found in. */
  datatype Kind = Filename | Content | Both {
    predicate ByName() { this != Content }

    predicate ByContent() { this != Filename }
  }

  type Matches = map<Path, (LiteMeta, Kind)>

  /** Found in a layer by either. */
  function CombineKind(a: Kind, b: Kind): (k: Kind)
    ensures k.ByName() <==> a.ByName() || b.ByName()
    ensures k.ByContent() <==> a.ByContent() || b.ByContent()
  {
    match (a, b)
    case (Filename, Content) => Both
    case (Content, Filename) => Both
    case (Both, _) => Both
    case (_, Both) => Both
    case _ => b
  }

  predicate AtCap(n: nat, cap: Option<nat>) { cap.Some? && n >= cap.value }

  predicate WithinCap(n: nat, cap: Option<nat>) { cap.Some? ==> n <= cap.value }

  /** A hit for `p` has come in: a new path only below the cap, no other entry touched,
      and the entry of `p` has this metadata and is of its old layers and the new one. */
  ghost predicate Takes(was: Matches, now: Matches, p: Path, meta: LiteMeta, kind: Kind, cap: Option<nat>) {
    && now.Keys == (if AtCap(|was|, cap) then was.Keys else was.Keys + {p})
    && (forall q :: q in now && q != p ==> now[q] == was[q])
    && (p in now ==>
          && now[p].0 == meta
          && (now[p].1.ByName() <==> kind.ByName() || (p in was && was[p].1.ByName()))
          && (now[p].1.ByContent() <==> kind.ByContent() || (p in was && was[p].1.ByContent())))
  }

  class Merged {
    const cap: Option<nat>
    var m: Matches

    constructor (cap: Option<nat>)
      ensures this.cap == cap && m == map[]
    {
      this.cap, m := cap, map[];
    }

    /** Of two metadata, the older stays. */
    method MergeIn(path: Path, meta: LiteMeta, kind: Kind)
      modifies this
      ensures Takes(old(m), m, path, if path in old(m) then old(m)[path].0 else meta, kind, cap)
      ensures WithinCap(|old(m)|, cap) ==> WithinCap(|m|, cap)
    {
      if cap.Some? && |m| >= cap.value && path !in m { return; }
      if path in m {
        m := m[path := (m[path].0, CombineKind(m[path].1, kind))];
      } else {
        m := m[path := (meta, kind)];
      }
      TakenSize(old(m), m, path, cap);
    }

    /** Of two metadata, the newer wins. */
    method OverrideIn(path: Path, meta: LiteMeta, kind: Kind)
      modifies this
      ensures Takes(old(m), m, path, meta, kind, cap)
      ensures WithinCap(|old(m)|, cap) ==> WithinCap(|m|, cap)
    {
      if path in m {
        m := m[path := (meta, CombineKind(m[path].1, kind))];
      } else if !(cap.Some? && |m| >= cap.value) {
        m := m[path := (meta, kind)];
      }
      TakenSize(old(m), m, path, cap);
    }
  }

  lemma {:induction false} TakenSize(was: Matches, now: Matches, p: Path, cap: Option<nat>)
    requires now.Keys == was.Keys || (now.Keys == was.Keys + {p} && !AtCap(|was|, cap))
    ensures |was| <= |now| <= |was| + 1 && (WithinCap(|was|, cap) ==> WithinCap(|now|, cap))
    ensures now.Keys == was.Keys ==> |now| == |was|
  {
    assert |was| == |was.Keys| && |now| == |now.Keys|;
    if now.Keys != was.Keys { assert p !in was; }
  }

  // ---------------------------------------------------------------- rows

  /** The rows as a map. */
  function RowMap(rows: seq<Row>): Metas {
    if rows == [] then map[] else RowMap(rows[..|rows| - 1])[rows[|rows| - 1].0 := rows[|rows| - 1].1]
  }

  ghost predicate DistinctRows(rows: seq<Row>) {
    forall i, j :: 0 <= i < j < |rows| ==> rows[i].0 != rows[j].0
  }

  lemma {:induction false} RowMapKeys(rows: seq<Row>)
    ensures forall p :: p in RowMap(rows) <==> exists r :: r in rows && r.0 == p
  {
    if rows != [] {
      var n := |rows| - 1;
      RowMapKeys(rows[..n]);
      SplitLast(rows);
    }
  }

  lemma {:induction false} RowMapEntries(rows: seq<Row>)
    requires DistinctRows(rows)
    ensures forall r :: r in rows ==> r.0 in RowMap(rows) && RowMap(rows)[r.0] == r.1
  {
    if rows != [] {
      var n := |rows| - 1;
      RowMapEntries(rows[..n]);
      forall r | r in rows ensures r.0 in RowMap(rows) && RowMap(rows)[r.0] == r.1 {
        var i :| 0 <= i < |rows| && rows[i] == r;
        if i < n { assert rows[..n][i] == r; }
      }
    }
  }

  /** `rows` lists the entries of `want`, each once. */
  ghost predicate Lists(rows: seq<Row>, want: Metas) {
    && DistinctRows(rows)
    && (forall r :: r in rows ==> r.0 in want && want[r.0] == r.1)
    && forall p :: p in want ==> exists r :: r in rows && r.0 == p
  }

  lemma {:induction false} ListsMap(rows: seq<Row>, want: Metas)
    requires Lists(rows, want)
    ensures RowMap(rows) == want
  {
    RowMapKeys(rows);
    RowMapEntries(rows);
    forall p | p in RowMap(rows) ensures p in want && want[p] == RowMap(rows)[p] {
      var r :| r in rows && r.0 == p;
    }
  }

  /** Some of the entries of `all`. */
  predicate Part(some: Metas, all: Metas) { forall p :: p in some ==> p in all && some[p] == all[p] }

  lemma {:induction false} RowsPart(rows: seq<Row>, want: Metas)
    requires DistinctRows(rows) && forall r :: r in rows ==> r.0 in want && want[r.0] == r.1
    ensures Part(RowMap(rows), want)
  {
    RowMapKeys(rows);
    RowMapEntries(rows);
    forall p | p in RowMap(rows) ensures p in want && RowMap(rows)[p] == want[p] {
      var r :| r in rows && r.0 == p;
    }
  }

  lemma {:induction false} RowMapSize(rows: seq<Row>)
    requires DistinctRows(rows)
    ensures |RowMap(rows)| == |rows|
  {
    if rows != [] {
      SplitLast(rows);
      var n := |rows| - 1;
      RowMapSize(rows[..n]);
      NextRow(rows[..n], rows[n]);
    }
  }

  lemma {:induction false} NextRow(rows: seq<Row>, r: Row)
    requires DistinctRows(rows + [r])
    ensures DistinctRows(rows) && r.0 !in RowMap(rows) && RowMap(rows + [r]) == RowMap(rows)[r.0 := r.1]
  {
    var all := rows + [r];
    assert all[..|rows|] == rows;
    RowMapKeys(rows);
    forall i, j | 0 <= i < j < |rows| ensures rows[i].0 != rows[j].0 { assert all[i] == rows[i] && all[j] == rows[j]; }
    forall s | s in rows ensures s.0 != r.0 {
      var i :| 0 <= i < |rows| && rows[i] == s;
      assert all[i] == s && all[|rows|] == r;
    }
  }

  lemma {:induction false} DistinctPrefix(rows: seq<Row>, some: seq<Row>)
    requires some <= rows && DistinctRows(rows)
    ensures DistinctRows(some) && forall r :: r in some ==> r in rows
  {
    forall i, j | 0 <= i < j < |some| ensures some[i].0 != some[j].0 {
      assert some[i] == rows[i] && some[j] == rows[j];
    }
  }

  lemma {:induction false} DistinctConcat(a: seq<Row>, b: seq<Row>)
    requires DistinctRows(a) && DistinctRows(b) && forall r, s :: r in a && s in b ==> r.0 != s.0
    ensures DistinctRows(a + b)
  {
    forall i, j | 0 <= i < j < |a + b| ensures (a + b)[i].0 != (a + b)[j].0 {
      if i < |a| <= j { assert a[i] in a && b[j - |a|] in b; }
    }
  }

  lemma {:induction false} ConcatDistinct(a: seq<Row>, b: seq<Row>)
    requires DistinctRows(a + b)
    ensures DistinctRows(a) && DistinctRows(b) && forall r, s :: r in a && s in b ==> r.0 != s.0
  {
    var all := a + b;
    forall i, j | 0 <= i < j < |a| ensures a[i].0 != a[j].0 { assert all[i] == a[i] && all[j] == a[j]; }
    forall i, j | 0 <= i < j < |b| ensures b[i].0 != b[j].0 { assert all[|a| + i] == b[i] && all[|a| + j] == b[j]; }
    forall r, s | r in a && s in b ensures r.0 != s.0 {
      var i :| 0 <= i < |a| && a[i] == r;
      var j :| 0 <= j < |b| && b[j] == s;
      assert all[i] == r && all[|a| + j] == s;
    }
  }

  // ---------------------------------------------------------------- two layers

  /** What is found by name and what is found by content, as one map. */
  function Join(names: Metas, contents: Metas): Matches {
    map p | p in names.Keys + contents.Keys ::
      (if p in names then names[p] else contents[p],
       if p in names && p in contents then Both else if p in names then Filename else Content)
  }

  lemma {:induction false} JoinSplit(a: Metas, b: Metas, c: Metas, d: Metas)
    requires (a.Keys + c.Keys) !! (b.Keys + d.Keys)
    ensures Join(a + b, c + d) == Join(a, c) + Join(b, d)
  {
    var all, parts := Join(a + b, c + d), Join(a, c) + Join(b, d);
    assert all.Keys == parts.Keys;
  }

  /** Every entry has its reasons: the layers it names found the path, and its metadata
      is that of the first of them. */
  ghost predicate Grounded(m: Matches, names: Metas, contents: Metas) {
    forall p :: p in m ==>
      && (m[p].1.ByName() ==> p in names) && (m[p].1.ByContent() ==> p in contents)
      && m[p].0 == if m[p].1.ByName() then names[p] else contents[p]
  }

  lemma {:induction false} PartGrounded(m: Matches, n: Metas, c: Metas, names: Metas, contents: Metas)
    requires Part(n, names) && Part(c, contents)
    requires forall p :: p in m ==> p in Join(n, c) && m[p] == Join(n, c)[p]
    ensures Grounded(m, names, contents)
  {
  }

  // ---------------------------------------------------------------- what a cap leaves

  /** `m` is `base` and of `more` as much as the cap allows. */
  ghost predicate Filled(m: Matches, base: Matches, more: Matches, cap: Option<nat>) {
    && FilledKeys(m.Keys, base.Keys, more.Keys, cap)
    && forall p :: p in m ==> Entry(base, more, p, m[p])
  }

  ghost predicate FilledKeys(now: set<Path>, base: set<Path>, more: set<Path>, cap: Option<nat>) {
    base <= now <= base + more && base !! more && (AtCap(|now|, cap) || more <= now)
  }

  predicate Entry(base: Matches, more: Matches, p: Path, e: (LiteMeta, Kind)) {
    if p in base then base[p] == e else p in more && more[p] == e
  }

  lemma {:induction false} NothingFilled(base: Matches, cap: Option<nat>)
    ensures Filled(base, base, Join(map[], map[]), cap)
  {
  }

  /** Without a cap, all of `more` comes in. */
  lemma {:induction false} FilledWhole(m: Matches, base: Matches, more: Matches)
    requires Filled(m, base, more, None)
    ensures m == base + more
  {
    var all := base + more;
    assert m.Keys == all.Keys;
    forall p | p in m ensures m[p] == all[p] { assert Entry(base, more, p, m[p]); }
  }

  lemma {:induction false} FilledAlone(m: Matches, more: Matches)
    requires Filled(m, map[], more, None)
    ensures m == more
  {
    FilledWhole(m, map[], more);
    assert map[] + more == more;
  }

  /** With a cap, as much as fits. */
  lemma {:induction false} FilledSize(m: Matches, base: Matches, more: Matches, k: nat)
    requires Filled(m, base, more, Some(k)) && |m| <= k
    ensures |m| == Min(k, |base| + |more|)
  {
    var all := base.Keys + more.Keys;
    assert |m| == |m.Keys| && |base| == |base.Keys| && |more| == |more.Keys|;
    assert |all| == |base.Keys| + |more.Keys|;
    SubsetSize(m.Keys, all);
    if more.Keys <= m.Keys { assert m.Keys == all; }
  }

  function Min(a: nat, b: nat): nat { if a < b then a else b }

  /** `more` is `prev` with one more layer for `p`. */
  ghost predicate Extends(prev: Matches, more: Matches, p: Path, kind: Kind) {
    && more.Keys == prev.Keys + {p}
    && (forall q :: q in prev && q != p ==> more[q] == prev[q])
    && (more[p].1.ByName() <==> kind.ByName() || (p in prev && prev[p].1.ByName()))
    && (more[p].1.ByContent() <==> kind.ByContent() || (p in prev && prev[p].1.ByContent()))
  }

  /** Taking a row in fills the map further. */
  lemma {:induction false} FillStep(was: Matches, now: Matches, base: Matches, prev: Matches, more: Matches, p: Path,
      x: LiteMeta, kind: Kind, cap: Option<nat>)
    requires Filled(was, base, prev, cap) && p !in base && Extends(prev, more, p, kind)
    requires Takes(was, now, p, x, kind, cap) && (p in now ==> x == more[p].0)
    ensures Filled(now, base, more, cap)
  {
    FillKeys(was, now, base.Keys, prev.Keys, p, cap);
    if p in now { FillEntry(was, now, base, prev, more, p, x, kind, cap); }
    forall q | q in now ensures Entry(base, more, q, now[q]) {
      if q != p { assert q in was && Entry(base, prev, q, was[q]); }
    }
  }

  lemma {:induction false} FillKeys(was: Matches, now: Matches, base: set<Path>, prev: set<Path>, p: Path,
      cap: Option<nat>)
    requires FilledKeys(was.Keys, base, prev, cap) && p !in base
    requires now.Keys == if AtCap(|was|, cap) then was.Keys else was.Keys + {p}
    ensures FilledKeys(now.Keys, base, prev + {p}, cap)
  {
    assert |was| == |was.Keys|;
  }

  lemma {:induction false} FillEntry(was: Matches, now: Matches, base: Matches, prev: Matches, more: Matches, p: Path,
      x: LiteMeta, kind: Kind, cap: Option<nat>)
    requires Filled(was, base, prev, cap) && p !in base && Extends(prev, more, p, kind)
    requires Takes(was, now, p, x, kind, cap) && p in now && x == more[p].0
    ensures now[p] == more[p]
  {
    if p in was { assert Entry(base, prev, p, was[p]); }
    assert |was| == |was.Keys|;
    KindIs(now[p].1, more[p].1);
  }

  lemma {:induction false} ExtendNames(n: Metas, c: Metas, p: Path, meta: LiteMeta)
    requires p !in n && p !in c
    ensures Extends(Join(n, c), Join(n[p := meta], c), p, Filename)
  {
    assert Join(n[p := meta], c).Keys == Join(n, c).Keys + {p};
  }

  lemma {:induction false} ExtendContents(n: Metas, c: Metas, p: Path, meta: LiteMeta)
    requires p !in c
    ensures Extends(Join(n, c), Join(n, c[p := meta]), p, Content)
  {
    assert Join(n, c[p := meta]).Keys == Join(n, c).Keys + {p};
  }

  lemma {:induction false} KindIs(a: Kind, b: Kind)
    requires (a.ByName() <==> b.ByName()) && (a.ByContent() <==> b.ByContent())
    ensures a == b
  {
  }

  // ---------------------------------------------------------------- the first paths

  /** The paths after `rows` have come in one by one, while there is room. */
  function Firsts(s: set<Path>, rows: seq<Row>, cap: Option<nat>): set<Path> {
    if rows == [] then s
    else
      var t := Firsts(s, rows[..|rows| - 1], cap);
      if AtCap(|t|, cap) then t else t + {rows[|rows| - 1].0}
  }

  lemma {:induction false} FirstsConcat(s: set<Path>, a: seq<Row>, b: seq<Row>, cap: Option<nat>)
    ensures Firsts(s, a + b, cap) == Firsts(Firsts(s, a, cap), b, cap)
    decreases |b|
  {
    if b == [] {
      assert a + b == a;
    } else {
      var n := |b| - 1;
      assert (a + b)[..|a + b| - 1] == a + b[..n];
      FirstsConcat(s, a, b[..n], cap);
    }
  }

  lemma {:induction false} NextFirst(s: set<Path>, rows: seq<Row>, r: Row, cap: Option<nat>)
    ensures var t := Firsts(s, rows, cap); Firsts(s, rows + [r], cap) == if AtCap(|t|, cap) then t else t + {r.0}
  {
    assert (rows + [r])[..|rows|] == rows;
  }

  lemma {:induction false} FirstsFull(s: set<Path>, rows: seq<Row>, cap: Option<nat>)
    requires AtCap(|s|, cap)
    ensures Firsts(s, rows, cap) == s
  {
    if rows != [] { FirstsFull(s, rows[..|rows| - 1], cap); }
  }

  /** Unless there is no more room, all have come in. */
  lemma {:induction false} FirstsExact(s: set<Path>, rows: seq<Row>, cap: Option<nat>)
    ensures var t := Firsts(s, rows, cap);
            && s <= t && (WithinCap(|s|, cap) ==> WithinCap(|t|, cap))
            && (forall p :: p in t ==> p in s || exists r :: r in rows && r.0 == p)
            && (AtCap(|t|, cap) || forall r :: r in rows ==> r.0 in t)
  {
    if rows != [] {
      var n := |rows| - 1;
      FirstsExact(s, rows[..n], cap);
      SplitLast(rows);
      var t := Firsts(s, rows[..n], cap);
      if !AtCap(|t|, cap) && rows[n].0 in t { assert t + {rows[n].0} == t; }
    }
  }

  /** More than the first `k` of different paths never come in. */
  lemma {:induction false} FirstsTake(s: set<Path>, rows: seq<Row>, k: nat)
    requires DistinctRows(rows)
    ensures Firsts(s, Take(rows, k), Some(k)) == Firsts(s, rows, Some(k))
  {
    if k < |rows| {
      var some, rest := rows[..k], rows[k..];
      assert rows == some + rest;
      DistinctPrefix(rows, some);
      FirstsFill(s, some, k);
      FirstsConcat(s, some, rest, Some(k));
      FirstsFull(Firsts(s, some, Some(k)), rest, Some(k));
    }
  }

  /** After `k` different paths there is no more room. */
  lemma {:induction false} FirstsFill(s: set<Path>, rows: seq<Row>, k: nat)
    requires DistinctRows(rows) && |rows| == k
    ensures AtCap(|Firsts(s, rows, Some(k))|, Some(k))
  {
    FirstsExact(s, rows, Some(k));
    RowMapSize(rows);
    RowMapKeys(rows);
    var t := Firsts(s, rows, Some(k));
    if !AtCap(|t|, Some(k)) {
      assert |RowMap(rows)| == |RowMap(rows).Keys|;
      SubsetSize(RowMap(rows).Keys, t);
    }
  }

  /** Taking a row in moves the paths on. */
  lemma {:induction false} FirstsStep(was: Matches, now: Matches, s: set<Path>, rows: seq<Row>, r: Row, x: LiteMeta,
      kind: Kind, cap: Option<nat>)
    requires was.Keys == Firsts(s, rows, cap) && Takes(was, now, r.0, x, kind, cap)
    ensures now.Keys == Firsts(s, rows + [r], cap)
  {
    NextFirst(s, rows, r, cap);
    assert |was| == |was.Keys|;
  }
}
