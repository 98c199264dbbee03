/** Line mode over one database entry: the grep-style hits of all shards and of the
    overlay. */
module LineQuery {
  import opened Prelude
  import opened Bytes
  import opened Text
  import opened ContentBuild
  import opened ColdLayers
  import opened QueryEntry
  import opened LineHits
  import O = Overlay
  import Candidates
  import Lines
  import opened Records
  import Shard

  type Path = seq<byte>

  datatype LineHit = LineHit(path: Path, no: nat, text: seq<byte>)

  /** The hits of one file, under its path. */
  function Tag(p: Path, hits: seq<(nat, seq<byte>)>): (r: seq<LineHit>)
    ensures |r| == |hits| && forall i :: 0 <= i < |hits| ==> r[i] == LineHit(p, hits[i].0, hits[i].1)
  {
    seq(|hits|, i requires 0 <= i < |hits| => LineHit(p, hits[i].0, hits[i].1))
  }

  function FileLines(qr: Query, context: Option<nat>, p: Path, content: Option<seq<byte>>): seq<LineHit> {
    if qr.scope(p) && content.Some? then Tag(p, FileHits(content.value, qr.Needle(), qr.cs, context)) else []
  }

  /** The hits of the items of a list, one after the other. */
  function Flat<T>(items: seq<T>, f: T -> seq<LineHit>): seq<LineHit> {
    if items == [] then [] else Flat(items[..|items| - 1], f) + f(items[|items| - 1])
  }

  lemma {:induction false} NextFlat<T>(items: seq<T>, x: T, f: T -> seq<LineHit>)
    ensures Flat(items + [x], f) == Flat(items, f) + f(x)
  {
    assert (items + [x])[..|items|] == items;
  }

  lemma {:induction false} FlatStep<T>(items: seq<T>, i: nat, f: T -> seq<LineHit>)
    requires i < |items|
    ensures Flat(items[..i + 1], f) == Flat(items[..i], f) + f(items[i])
  {
    assert items[..i + 1] == items[..i] + [items[i]];
    NextFlat(items[..i], items[i], f);
  }

  lemma {:induction false} FlatUpTo(d: nat, f: nat -> seq<LineHit>)
    ensures Flat(Candidates.UpTo(d + 1), f) == Flat(Candidates.UpTo(d), f) + f(d)
  {
    assert Candidates.UpTo(d + 1) == Candidates.UpTo(d) + [d];
    NextFlat<nat>(Candidates.UpTo(d), d, f);
  }

  lemma {:induction false} FlatConcat<T>(a: seq<T>, b: seq<T>, f: T -> seq<LineHit>)
    ensures Flat(a + b, f) == Flat(a, f) + Flat(b, f)
    decreases |b|
  {
    if b == [] {
      assert a + b == a;
    } else {
      assert (a + b)[..|a + b| - 1] == a + b[..|b| - 1];
      FlatConcat(a, b[..|b| - 1], f);
    }
  }

  // ---------------------------------------------------------------- shards

  /** The hits of one document of a shard. */
  function DocLines(r: Shard.ShardReader, qr: Query, context: Option<nat>): nat -> seq<LineHit> {
    (d: nat) =>
      match (r.Path(d), r.Content(d))
      case (Ok(p), Ok(c)) => FileLines(qr, context, p, Some(c))
      case _ => []
  }

  function ShardLines(bytes: seq<byte>, h: nat -> nat, qr: Query, context: Option<nat>,
      limit: Option<nat>): seq<LineHit> {
    match Shard.Open(bytes)
    case Err(_) => []
    case Ok(r) => Flat(ShardDocids(r, h, qr, limit), DocLines(r, qr, context))
  }

  function AllShardLines(srcs: seq<seq<byte>>, h: nat -> nat, qr: Query, context: Option<nat>,
      limit: Option<nat>): seq<LineHit> {
    Flat(srcs, (bytes: seq<byte>) => ShardLines(bytes, h, qr, context, limit))
  }

  method QueryLines(srcs: seq<seq<byte>>, h: nat -> nat, qr: Query, context: Option<nat>, limit: Option<nat>)
    returns (out: seq<LineHit>)
    ensures out == AllShardLines(srcs, h, qr, context, limit)
  {
    ghost var lines := (bytes: seq<byte>) => ShardLines(bytes, h, qr, context, limit);
    out := [];
    for i := 0 to |srcs|
      invariant out == Flat(srcs[..i], lines)
    {
      FlatStep(srcs, i, lines);
      var more := QueryShardLines(srcs[i], h, qr, context, limit);
      out := out + more;
    }
    assert srcs[..|srcs|] == srcs;
  }

  method QueryShardLines(bytes: seq<byte>, h: nat -> nat, qr: Query, context: Option<nat>, limit: Option<nat>)
    returns (out: seq<LineHit>)
    ensures out == ShardLines(bytes, h, qr, context, limit)
  {
    out := [];
    var r := Shard.OpenShard(bytes);
    if r.Err? { return; }
    var docids := Candidates.ComputeCandidates(r.value.Source(h), Fold(qr.q), qr.q, qr.cs, limit);
    var ds := if docids.Ok? then docids.value else [];
    for i := 0 to |ds|
      invariant out == Flat(ds[..i], DocLines(r.value, qr, context))
    {
      FlatStep(ds, i, DocLines(r.value, qr, context));
      var more := ResolveLines(r.value, ds[i], qr, context);
      out := out + more;
    }
    assert ds[..|ds|] == ds;
  }

  method ResolveLines(r: Shard.ShardReader, d: nat, qr: Query, context: Option<nat>) returns (out: seq<LineHit>)
    ensures out == DocLines(r, qr, context)(d)
  {
    var path := r.Path(d);
    if path.Err? || !qr.scope(path.value) { return []; }
    var content := r.Content(d);
    if content.Err? { return []; }
    var hits := EmitHits(content.value, qr.Needle(), qr.cs, context);
    return Tag(path.value, hits);
  }

  // ---------------------------------------------------------------- overlay

  /** The hits of one slot of the overlay. */
  function SlotLines(paths: seq<Path>, contents: seq<Option<seq<byte>>>, tombstones: set<Path>, qr: Query,
      context: Option<nat>): nat -> seq<LineHit> {
    (d: nat) =>
      if d < |paths| && d < |contents| && paths[d] !in tombstones then FileLines(qr, context, paths[d], contents[d])
      else []
  }

  /** Fewer than `n` slots do not have as many hits as the limit asks for. */
  predicate Short(lines: nat -> seq<LineHit>, limit: Option<nat>, n: nat) {
    n == 0 || (Short(lines, limit, n - 1) && !Candidates.Full(|Flat(Candidates.UpTo(n - 1), lines)|, limit))
  }

  /** `n` slots are the first that have, or all `total` when these never do. */
  predicate Stops(lines: nat -> seq<LineHit>, total: nat, limit: Option<nat>, n: nat) {
    && n <= total && (n == total || Candidates.Full(|Flat(Candidates.UpTo(n), lines)|, limit))
    && Short(lines, limit, n)
  }

  method SlotHits(ov: O.Overlay, d: nat, qr: Query, context: Option<nat>) returns (out: seq<LineHit>)
    requires ov.Valid() && d < |ov.paths|
    ensures out == SlotLines(ov.paths, ov.contents, ov.tombstones, qr, context)(d)
  {
    var path := ov.paths[d];
    if path in ov.tombstones || !qr.scope(path) { return []; }
    if ov.contents[d].None? { return []; }
    var hits := EmitHits(ov.contents[d].value, qr.Needle(), qr.cs, context);
    return Tag(path, hits);
  }

  /** The hits of the overlay; a limit stops between two files. */
  method OverlayLineHits(ov: O.Overlay, qr: Query, context: Option<nat>, limit: Option<nat>)
    returns (out: seq<LineHit>, ghost n: nat)
    requires ov.Valid()
    ensures var lines := SlotLines(ov.paths, ov.contents, ov.tombstones, qr, context);
            out == Flat(Candidates.UpTo(n), lines) && Stops(lines, |ov.paths|, limit, n)
  {
    out, n := FirstSlots(ov, qr, context, limit, SlotLines(ov.paths, ov.contents, ov.tombstones, qr, context));
  }

  method FirstSlots(ov: O.Overlay, qr: Query, context: Option<nat>, limit: Option<nat>,
      ghost lines: nat -> seq<LineHit>)
    returns (out: seq<LineHit>, ghost n: nat)
    requires ov.Valid() && lines == SlotLines(ov.paths, ov.contents, ov.tombstones, qr, context)
    ensures out == Flat(Candidates.UpTo(n), lines) && Stops(lines, |ov.paths|, limit, n)
  {
    out := [];
    for d := 0 to |ov.paths|
      invariant out == Flat(Candidates.UpTo(d), lines) && Short(lines, limit, d)
    {
      if limit.Some? && |out| >= limit.value {
        n := d;
        return;
      }
      FlatUpTo(d, lines);
      var more := SlotHits(ov, d, qr, context);
      out := out + more;
    }
    n := |ov.paths|;
  }

  // ---------------------------------------------------------------- both

  /** The hits that are not of a path in `v`. */
  function Kept(hits: seq<LineHit>, v: O.View): seq<LineHit> {
    if hits == [] then []
    else
      var front, e := Kept(hits[..|hits| - 1], v), hits[|hits| - 1];
      if e.path in v then front else front + [e]
  }

  method Retain(hits: seq<LineHit>, ov: O.Overlay) returns (out: seq<LineHit>)
    requires ov.Valid()
    ensures out == Kept(hits, ov.View())
  {
    out := [];
    for i := 0 to |hits|
      invariant out == Kept(hits[..i], ov.View())
    {
      assert hits[..i + 1][..i] == hits[..i];
      if !ov.Suppresses(hits[i].path) { out := out + [hits[i]]; }
    }
    assert hits[..|hits|] == hits;
  }

  /** The hits under one path, in order. */
  function At(hits: seq<LineHit>, p: Path): seq<LineHit> {
    if hits == [] then []
    else
      var front, e := At(hits[..|hits| - 1], p), hits[|hits| - 1];
      if e.path == p then front + [e] else front
  }

  lemma {:induction false} AtConcat(a: seq<LineHit>, b: seq<LineHit>, p: Path)
    ensures At(a + b, p) == At(a, p) + At(b, p)
    decreases |b|
  {
    if b == [] {
      assert a + b == a;
    } else {
      assert (a + b)[..|a + b| - 1] == a + b[..|b| - 1];
      AtConcat(a, b[..|b| - 1], p);
    }
  }

  lemma {:induction false} AtOwn(hits: seq<LineHit>, p: Path, q: Path)
    requires forall e :: e in hits ==> e.path == q
    ensures At(hits, p) == if p == q then hits else []
  {
    if hits != [] {
      SplitLast(hits);
      AtOwn(hits[..|hits| - 1], p, q);
    }
  }

  lemma {:induction false} AtKept(hits: seq<LineHit>, v: O.View, p: Path)
    ensures At(Kept(hits, v), p) == if p in v then [] else At(hits, p)
  {
    if hits != [] {
      var n := |hits| - 1;
      AtKept(hits[..n], v, p);
      SplitLast(hits);
      var front := Kept(hits[..n], v);
      AtConcat(front, [hits[n]], p);
      AtOwn([hits[n]], p, hits[n].path);
    }
  }

  lemma {:induction false} AtFile(qr: Query, context: Option<nat>, q: Path, content: Option<seq<byte>>, p: Path)
    ensures At(FileLines(qr, context, q, content), p) == if p == q then FileLines(qr, context, q, content) else []
  {
    AtOwn(FileLines(qr, context, q, content), p, q);
  }

  // ---------------------------------------------------------------- the shards of a build

  function ContentLines(qr: Query, context: Option<nat>): Shard.File -> seq<LineHit> {
    (f: Shard.File) => FileLines(qr, context, f.path, Some(f.content))
  }

  lemma {:induction false} NoMatchNoHits(content: seq<byte>, qr: Query, context: Option<nat>)
    requires !Shard.Hit(content, qr.Needle(), qr.cs)
    ensures FileHits(content, qr.Needle(), qr.cs, context) == []
  {
    if qr.Needle() != [] { FindsNone(Hay(content, qr.cs), qr.Needle(), 0); }
  }

  lemma {:induction false} FindsNone(hay: seq<byte>, needle: seq<byte>, i: nat)
    requires needle != [] && !Contains(hay, needle)
    ensures FindFrom(hay, needle, i) == []
    decreases |hay| - i
  {
    if i + |needle| <= |hay| && !Occurs(hay, needle, i) { FindsNone(hay, needle, i + 1); }
  }

  lemma {:induction false} FlatSame<S, T>(xs: seq<S>, f: S -> seq<LineHit>, ys: seq<T>, g: T -> seq<LineHit>)
    requires |xs| == |ys| && forall i :: 0 <= i < |xs| ==> f(xs[i]) == g(ys[i])
    ensures Flat(xs, f) == Flat(ys, g)
  {
    if xs != [] { FlatSame(xs[..|xs| - 1], f, ys[..|ys| - 1], g); }
  }

  /** A shard prints its first matching files. */
  lemma {:induction false} ShardLinesExact(bytes: seq<byte>, h: nat -> nat, files: seq<Shard.File>, qr: Query,
      context: Option<nat>, limit: Option<nat>)
    requires ShardOf(bytes, h, files)
    ensures ShardLines(bytes, h, qr, context, limit)
         == Flat(Cap(MatchingFiles(files, qr), limit), ContentLines(qr, context))
  {
    var st :| Shard.IsShard(bytes, h, st, files);
    Shard.RoundTrip(bytes, h, st, files);
    Shard.SearchIsScan(bytes, h, st, files, qr.q, qr.cs, limit);
    ReaderLines(Shard.Open(bytes).value, files, qr, context, limit);
  }

  lemma {:induction false} ReaderLines(r: Shard.ShardReader, files: seq<Shard.File>, qr: Query, context: Option<nat>,
      limit: Option<nat>)
    requires forall d: nat :: d < |files| ==> r.Path(d) == Ok(files[d].path) && r.Content(d) == Ok(files[d].content)
    ensures var ds := Candidates.Scan(|files|, Shard.Hits(files, qr.Needle(), qr.cs), limit);
            Flat(ds, DocLines(r, qr, context)) == Flat(Cap(MatchingFiles(files, qr), limit), ContentLines(qr, context))
  {
    var all := Candidates.Filter(Candidates.UpTo(|files|), Shard.Hits(files, qr.Needle(), qr.cs));
    MatchingAre(files, qr, |files|);
    assert files[..|files|] == files;
    var ds, ms := Cap(all, limit), Cap(MatchingFiles(files, qr), limit);
    forall i | 0 <= i < |ds|
      ensures |ds| == |ms| && DocLines(r, qr, context)(ds[i]) == ContentLines(qr, context)(ms[i])
    {
      assert ds[i] == all[i] && ms[i] == MatchingFiles(files, qr)[i];
      assert r.Path(ds[i]) == Ok(files[ds[i]].path) && r.Content(ds[i]) == Ok(files[ds[i]].content);
    }
    FlatSame(ds, DocLines(r, qr, context), ms, ContentLines(qr, context));
  }

  lemma {:induction false} AllShardLinesExact(srcs: seq<seq<byte>>, groups: seq<seq<Shard.File>>, h: nat -> nat,
      qr: Query, context: Option<nat>, limit: Option<nat>)
    requires Holds(srcs, groups, h)
    ensures AllShardLines(srcs, h, qr, context, limit) == Flat(FirstFiles(groups, qr, limit), ContentLines(qr, context))
  {
    if srcs != [] {
      var n := |srcs| - 1;
      HoldsFront(srcs, groups, h);
      AllShardLinesExact(srcs[..n], groups[..n], h, qr, context, limit);
      ShardLinesExact(srcs[n], h, groups[n], qr, context, limit);
      FlatConcat(FirstFiles(groups[..n], qr, limit), Cap(MatchingFiles(groups[n], qr), limit),
        ContentLines(qr, context));
    }
  }

  // ---------------------------------------------------------------- which files are printed

  ghost predicate DistinctFiles(fs: seq<Shard.File>) { forall i, j :: 0 <= i < j < |fs| ==> fs[i].path != fs[j].path }

  lemma {:induction false} MatchingMembers(files: seq<Shard.File>, qr: Query)
    ensures forall f :: f in MatchingFiles(files, qr) <==> f in files && Shard.Hit(f.content, qr.Needle(), qr.cs)
  {
    if files != [] {
      SplitLast(files);
      MatchingMembers(files[..|files| - 1], qr);
    }
  }

  lemma {:induction false} MatchingDistinct(files: seq<Shard.File>, qr: Query)
    requires DistinctFiles(files)
    ensures DistinctFiles(MatchingFiles(files, qr))
  {
    if files != [] {
      var n := |files| - 1;
      var front := MatchingFiles(files[..n], qr);
      MatchingDistinct(files[..n], qr);
      MatchingMembers(files[..n], qr);
      forall i | 0 <= i < |front| ensures front[i].path != files[n].path {
        assert front[i] in front;
        var j :| 0 <= j < n && files[..n][j] == front[i];
      }
    }
  }

  lemma {:induction false} SplitDistinct(a: seq<Shard.File>, b: seq<Shard.File>)
    requires DistinctFiles(a + b)
    ensures DistinctFiles(a) && DistinctFiles(b) && forall f, g :: f in a && g in b ==> f.path != g.path
  {
    var all := a + b;
    forall i, j | 0 <= i < j < |a| ensures a[i].path != a[j].path { assert all[i] == a[i] && all[j] == a[j]; }
    forall i, j | 0 <= i < j < |b| ensures b[i].path != b[j].path {
      assert all[|a| + i] == b[i] && all[|a| + j] == b[j];
    }
    forall f, g | f in a && g in b ensures f.path != g.path {
      var i :| 0 <= i < |a| && a[i] == f;
      var j :| 0 <= j < |b| && b[j] == g;
      assert all[i] == f && all[|a| + j] == g;
    }
  }

  lemma {:induction false} JoinDistinct(a: seq<Shard.File>, b: seq<Shard.File>)
    requires DistinctFiles(a) && DistinctFiles(b) && forall f, g :: f in a && g in b ==> f.path != g.path
    ensures DistinctFiles(a + b)
  {
  }

  /** They are content files, each once; without a limit, all that match. */
  lemma {:induction false} PrintedMembers(groups: seq<seq<Shard.File>>, qr: Query, limit: Option<nat>)
    requires DistinctFiles(Concat(groups))
    ensures var ps := FirstFiles(groups, qr, limit);
            && DistinctFiles(ps) && (forall f :: f in ps ==> f in Concat(groups))
            && (limit.None? ==> forall f :: f in Concat(groups) && Shard.Hit(f.content, qr.Needle(), qr.cs) ==> f in ps)
  {
    if groups != [] {
      var n := |groups| - 1;
      var front, last := groups[..n], groups[n];
      SplitLast(groups);
      ConcatAppend(front, last);
      SplitDistinct(Concat(front), last);
      PrintedMembers(front, qr, limit);
      MatchingMembers(last, qr);
      MatchingDistinct(last, qr);
      JoinDistinct(FirstFiles(front, qr, limit), Cap(MatchingFiles(last, qr), limit));
    }
  }

  predicate Prints(ps: seq<Shard.File>, p: Path) { exists i :: 0 <= i < |ps| && ps[i].path == p }

  lemma {:induction false} ContentFileOf(recs: seq<BuildRec>, f: Shard.File) returns (i: nat)
    requires f in ContentFiles(recs)
    ensures i < |recs| && recs[i].path == f.path && recs[i].content == Some(f.content)
  {
    var n := |recs| - 1;
    if f in ContentFiles(recs[..n]) { i := ContentFileOf(recs[..n], f); } else { i := n; }
  }

  lemma {:induction false} ContentFilesDistinct(recs: seq<BuildRec>)
    requires DistinctPaths(recs)
    ensures DistinctFiles(ContentFiles(recs))
  {
    if recs != [] {
      var n := |recs| - 1;
      ContentFilesDistinct(recs[..n]);
      var front := ContentFiles(recs[..n]);
      forall i | 0 <= i < |front| ensures front[i].path != recs[n].path {
        var j := ContentFileOf(recs[..n], front[i]);
        assert recs[j].path != recs[n].path;
      }
    }
  }

  lemma {:induction false} PrintsNext(fs: seq<Shard.File>, p: Path)
    requires fs != []
    ensures Prints(fs, p) <==> Prints(fs[..|fs| - 1], p) || fs[|fs| - 1].path == p
  {
    var n := |fs| - 1;
    if Prints(fs[..n], p) {
      var i :| 0 <= i < n && fs[..n][i].path == p;
      assert fs[i].path == p;
    }
  }

  /** Each file prints its own hits. */
  lemma {:induction false} FilesAt(fs: seq<Shard.File>, qr: Query, context: Option<nat>, p: Path, own: seq<LineHit>)
    requires DistinctFiles(fs) && forall f :: f in fs && f.path == p ==> ContentLines(qr, context)(f) == own
    ensures At(Flat(fs, ContentLines(qr, context)), p) == if Prints(fs, p) then own else []
  {
    if fs != [] {
      var front, f := fs[..|fs| - 1], fs[|fs| - 1];
      FilesAt(front, qr, context, p, own);
      PrintsNext(fs, p);
      LastFileAt(Flat(front, ContentLines(qr, context)), f, qr, context, p);
    }
  }

  lemma {:induction false} LastFileAt(hits: seq<LineHit>, f: Shard.File, qr: Query, context: Option<nat>, p: Path)
    ensures var own := ContentLines(qr, context)(f); At(hits + own, p) == At(hits, p) + if f.path == p then own else []
  {
    AtConcat(hits, ContentLines(qr, context)(f), p);
    AtFile(qr, context, f.path, Some(f.content), p);
  }

  /** What a scan of the files prints for `p`. */
  function ExpectLines(qr: Query, context: Option<nat>, f: Option<FileState>, p: Path): seq<LineHit> {
    if f.Some? then FileLines(qr, context, p, f.value.content) else []
  }

  // ---------------------------------------------------------------- the overlay's hits

  lemma {:induction false} SlotsAt(byPath: map<Path, nat>, paths: seq<Path>, lines: nat -> seq<LineHit>, n: nat,
      p: Path)
    requires O.Inverse(byPath, paths) && n <= |paths|
    requires forall d: nat, e :: d < |paths| && e in lines(d) ==> e.path == paths[d]
    ensures At(Flat(Candidates.UpTo(n), lines), p) == if p in byPath && byPath[p] < n then lines(byPath[p]) else []
  {
    if n > 0 {
      var d := n - 1;
      SlotsAt(byPath, paths, lines, d, p);
      FlatUpTo(d, lines);
      AtConcat(Flat(Candidates.UpTo(d), lines), lines(d), p);
      AtOwn(lines(d), p, paths[d]);
    }
  }

  lemma {:induction false} OverlayAt(byPath: map<Path, nat>, paths: seq<Path>, metas: seq<LiteMeta>,
      contents: seq<Option<seq<byte>>>, docTrigrams: seq<seq<nat>>, tombstones: set<Path>, qr: Query,
      context: Option<nat>, n: nat, p: Path)
    requires O.SlotsOf(byPath, paths, metas, contents, docTrigrams, tombstones) && n <= |paths|
    ensures var v := O.ViewOf(byPath, metas, contents, tombstones);
            var hits := Flat(Candidates.UpTo(n), SlotLines(paths, contents, tombstones, qr, context));
            At(hits, p)
              == if p in v && v[p].Live? && byPath[p] < n then FileLines(qr, context, p, v[p].content) else []
  {
    SlotsAt(byPath, paths, SlotLines(paths, contents, tombstones, qr, context), n, p);
  }

  // ---------------------------------------------------------------- line mode

  /** Whether line mode prints `p`: a path with a slot among the first `n`, any other that the
      shards print. */
  predicate Shown(byPath: map<Path, nat>, v: O.View, n: nat, printed: seq<Shard.File>, p: Path) {
    if p in v then p in byPath && byPath[p] < n else Prints(printed, p)
  }

  /** Line mode prints under each path that is shown what a scan of the files, with the
      overlay's changes applied, prints for it, and nothing under the others.  Without a limit
      it is that scan. */
  method LineMode(srcs: seq<seq<byte>>, ov: O.Overlay, h: nat -> nat, qr: Query, context: Option<nat>,
      limit: Option<nat>, ghost recs: seq<BuildRec>, ghost groups: seq<seq<Shard.File>>)
    returns (all: seq<LineHit>, ghost n: nat)
    requires ShardSet(srcs, groups, h, recs) && ov.Valid()
    ensures Stops(SlotLines(ov.paths, ov.contents, ov.tombstones, qr, context), |ov.paths|, limit, n)
    ensures forall p ::
      At(all, p) == if Shown(ov.byPath, ov.View(), n, FirstFiles(groups, qr, limit), p)
                    then ExpectLines(qr, context, Lookup(Updated(FilesOf(recs), ov.View()), p), p) else []
    ensures limit.None? ==> forall p ::
      At(all, p) == ExpectLines(qr, context, Lookup(Updated(FilesOf(recs), ov.View()), p), p)
  {
    all := QueryLines(srcs, h, qr, context, limit);
    ghost var cold := all;
    if ov.ShadowsAnything() {
      all := Retain(all, ov);
    } else {
      NothingShadowed(all);
    }
    ghost var kept := all;
    var hot;
    hot, n := OverlayLineHits(ov, qr, context, limit);
    all := all + hot;
    ghost var v := ov.View();
    AllShardLinesExact(srcs, groups, h, qr, context, limit);
    forall p
      ensures At(all, p) == if Shown(ov.byPath, v, n, FirstFiles(groups, qr, limit), p)
                            then ExpectLines(qr, context, Lookup(Updated(FilesOf(recs), v), p), p) else []
      ensures limit.None? ==> At(all, p) == ExpectLines(qr, context, Lookup(Updated(FilesOf(recs), v), p), p)
    {
      OverlayAt(ov.byPath, ov.paths, ov.metas, ov.contents, ov.docTrigrams, ov.tombstones, qr, context, n, p);
      ColdAt(groups, recs, qr, context, limit, p);
      LinesJoin(cold, kept, hot, FilesOf(recs), v, qr, context, p);
    }
  }

  /** Of a path, the shards print what its file prints, if they print it at all; and without a
      limit they leave out only files that print nothing. */
  lemma {:induction false} ColdAt(groups: seq<seq<Shard.File>>, recs: seq<BuildRec>, qr: Query, context: Option<nat>,
      limit: Option<nat>, p: Path)
    requires DistinctPaths(recs) && Concat(groups) == ContentFiles(recs)
    ensures var ps, own := FirstFiles(groups, qr, limit), ExpectLines(qr, context, Lookup(FilesOf(recs), p), p);
            && At(Flat(ps, ContentLines(qr, context)), p) == (if Prints(ps, p) then own else [])
            && (limit.None? && !Prints(ps, p) ==> own == [])
  {
    var ps, own := FirstFiles(groups, qr, limit), ExpectLines(qr, context, Lookup(FilesOf(recs), p), p);
    ContentFilesDistinct(recs);
    PrintedMembers(groups, qr, limit);
    forall f | f in ps && f.path == p ensures ContentLines(qr, context)(f) == own {
      var i := ContentFileOf(recs, f);
      QueryEntry.FilesAt(recs, i);
    }
    FilesAt(ps, qr, context, p, own);
    if limit.None? && !Prints(ps, p) { UnprintedIsEmpty(ps, recs, qr, context, p); }
  }

  lemma {:induction false} PrintsEach(ps: seq<Shard.File>, f: Shard.File)
    requires f in ps
    ensures Prints(ps, f.path)
  {
  }

  lemma {:induction false} UnprintedIsEmpty(ps: seq<Shard.File>, recs: seq<BuildRec>, qr: Query, context: Option<nat>,
      p: Path)
    requires DistinctPaths(recs) && !Prints(ps, p)
    requires forall f :: f in ContentFiles(recs) && Shard.Hit(f.content, qr.Needle(), qr.cs) ==> f in ps
    ensures ExpectLines(qr, context, Lookup(FilesOf(recs), p), p) == []
  {
    if p in FilesOf(recs) {
      var i := FilesFrom(recs, p);
      QueryEntry.FilesAt(recs, i);
      if recs[i].content.Some? {
        var f := Shard.File(p, MetaOf(recs[i]), recs[i].content.value);
        ContentFileThere(recs, i);
        if Shard.Hit(f.content, qr.Needle(), qr.cs) { PrintsEach(ps, f); }
        NoMatchNoHits(f.content, qr, context);
      }
    }
  }

  lemma {:induction false} ContentFileThere(recs: seq<BuildRec>, i: nat)
    requires i < |recs| && recs[i].content.Some?
    ensures Shard.File(recs[i].path, MetaOf(recs[i]), recs[i].content.value) in ContentFiles(recs)
  {
    var n := |recs| - 1;
    if i < n { ContentFileThere(recs[..n], i); }
  }

  lemma {:induction false} NothingShadowed(hits: seq<LineHit>)
    ensures Kept(hits, map[]) == hits
  {
    if hits != [] {
      SplitLast(hits);
      NothingShadowed(hits[..|hits| - 1]);
    }
  }

  lemma {:induction false} LinesJoin(cold: seq<LineHit>, kept: seq<LineHit>, hot: seq<LineHit>, files: Files,
      v: O.View, qr: Query, context: Option<nat>, p: Path)
    requires kept == Kept(cold, v) && (p !in v ==> At(hot, p) == [])
    ensures At(kept + hot, p) == if p in v then At(hot, p) else At(cold, p)
    ensures ExpectLines(qr, context, Lookup(Updated(files, v), p), p)
         == if p !in v then ExpectLines(qr, context, Lookup(files, p), p)
            else if v[p].Live? then FileLines(qr, context, p, v[p].content) else []
  {
    AtKept(cold, v, p);
    AtConcat(kept, hot, p);
    UpdatedAt(files, v, p);
    if p in v { assert [] + At(hot, p) == At(hot, p); } else { assert At(kept, p) + [] == At(kept, p); }
  }

  /** So each file in scope prints the lines that contain the needle, each once, with
      number and text. */
  lemma {:induction false} FileLinesAreGrep(qr: Query, p: Path, content: seq<byte>)
    requires Searchable(qr.Needle()) && qr.scope(p)
    ensures FileLines(qr, None, p, Some(content))
         == Tag(p, Grep(Lines.Texts(Lines.Pieces(content)), qr.Needle(), qr.cs, 0))
  {
    LineModeIsGrep(content, qr.Needle(), qr.cs);
  }

  /** A line matches when it has the text of the query as a part. */
  lemma {:induction false} LineHitIsPart(qr: Query, line: seq<byte>)
    ensures LineHas(line, qr.Needle(), qr.cs) <==> HasPart(line, qr.q, qr.cs)
  {
    if qr.cs { ContainsPart(line, qr.q); } else { FoldedPart(line, qr.q); }
  }

  /** It is so of all contents exactly for the needles that can stand in a line. */
  lemma {:induction false} GrepIff(qr: Query, p: Path)
    requires qr.scope(p)
    ensures Searchable(qr.Needle()) <==>
      forall content :: FileLines(qr, None, p, Some(content))
                     == Tag(p, Grep(Lines.Texts(Lines.Pieces(content)), qr.Needle(), qr.cs, 0))
  {
    var needle := qr.Needle();
    if Searchable(needle) {
      forall content ensures FileLines(qr, None, p, Some(content))
                          == Tag(p, Grep(Lines.Texts(Lines.Pieces(content)), needle, qr.cs, 0))
      {
        FileLinesAreGrep(qr, p, content);
      }
    } else {
      var hits := FileHits(needle, needle, qr.cs, None);
      var lines := Grep(Lines.Texts(Lines.Pieces(needle)), needle, qr.cs, 0);
      UnsearchableDiffers(needle, qr.cs);
      assert |Tag(p, hits)| == |hits| && |Tag(p, lines)| == |lines|;
    }
  }

  lemma {:induction false} GrepNothing(ts: seq<seq<byte>>, needle: seq<byte>, cs: bool, k: nat)
    requires Lines.NEWLINE in needle && forall t :: t in ts ==> Lines.NEWLINE !in t
    ensures Grep(ts, needle, cs, k) == []
    decreases |ts| - k
  {
    if k < |ts| {
      GrepNothing(ts, needle, cs, k + 1);
      NeedleInHay(ts[k], needle, cs);
    }
  }

  lemma {:induction false} NeedleInHay(text: seq<byte>, needle: seq<byte>, cs: bool)
    ensures LineHas(text, needle, cs) && Lines.NEWLINE in needle ==> Lines.NEWLINE in text
  {
    if LineHas(text, needle, cs) && Lines.NEWLINE in needle {
      var i :| 0 <= i <= |Hay(text, cs)| && Occurs(Hay(text, cs), needle, i);
      var j :| 0 <= j < |needle| && needle[j] == Lines.NEWLINE;
      assert Hay(text, cs)[i..i + |needle|][j] == Hay(text, cs)[i + j];
      assert text[i + j] in text;
    }
  }

  lemma {:induction false} TextsUnbroken(s: seq<byte>)
    ensures forall t :: t in Lines.Texts(Lines.Pieces(s)) ==> Lines.NEWLINE !in t
  {
    Lines.PiecesExact(s);
  }

  /** Searched for in itself, any other needle is found where no line has it, or not found
      where a line has it. */
  lemma {:induction false} UnsearchableDiffers(needle: seq<byte>, cs: bool)
    requires !Searchable(needle) && Hay(needle, cs) == needle
    ensures |FileHits(needle, needle, cs, None)| != |Grep(Lines.Texts(Lines.Pieces(needle)), needle, cs, 0)|
  {
    var ts := Lines.Texts(Lines.Pieces(needle));
    if needle == [] {
      Lines.NewlineEnds([], []);
      assert ts == [[]] && Occurs(Hay([], cs), [], 0);
      assert LineHas(ts[0], [], cs);
    } else {
      assert Occurs(needle, needle, 0);
      assert MatchOffsets(needle, needle, cs)[0] == 0;
      TextsUnbroken(needle);
      GrepNothing(ts, needle, cs, 0);
    }
  }
}
