/** The layers an index build wrote: the filename database and the content shards, and
    the rows that a query takes from each. */
module ColdLayers {
  import opened Prelude
  import opened Bytes
  import opened Text
  import opened Records
  import opened ContentBuild
  import opened Merge
  import O = Overlay
  import BoolQuery
  import Candidates
  import FileDb
  import Manifest
  import Shard

  /** A literal query: the needle, how it is compared, the layers and the scope. */
  datatype Query = Query(q: seq<byte>, cs: bool, basename: bool, wantFn: bool, wantCt: bool, scope: Path -> bool) {
    function Needle(): seq<byte> { if cs then q else Fold(q) }

    /** How the overlay judges a name: the text is searched for as it is. */
    predicate NameHit(p: Path) { wantFn && scope(p) && O.NameHolds(p, q, cs, basename) }

    /** How the database does: the text may be a formula, which the path must satisfy. */
    predicate ColdNameHit(p: Path) {
      wantFn && scope(p) && BoolQuery.Selects(p, q, cs) && (basename ==> O.NameHolds(p, q, cs, true))
    }

    predicate ContentHit(p: Path, content: Option<seq<byte>>) { wantCt && scope(p) && O.Holds(content, Needle(), cs) }

    /** The text is one word, so that the two ways to judge a name are the same. */
    predicate Plain() { wantFn ==> q != [] && BoolQuery.SingleWord(q) }

    ghost predicate Unscoped() { forall p :: scope(p) }

    /** For full paths, and without a scope. */
    ghost predicate Whole() { !basename && Unscoped() }
  }

  const NO_META: LiteMeta := LiteMeta(false, 0, 0)

  // ---------------------------------------------------------------- rows of docids

  /** The rows that the docids yield, in order; some yield none. */
  function RowsOf(row: nat -> Option<Row>, ds: seq<nat>): seq<Row> {
    if ds == [] then []
    else
      var front := RowsOf(row, ds[..|ds| - 1]);
      match row(ds[|ds| - 1]) case None => front case Some(r) => front + [r]
  }

  /** The rows that the items of a list yield. */
  function Listing<T>(items: seq<T>, f: T -> Option<Row>): seq<Row> {
    if items == [] then []
    else
      var front := Listing(items[..|items| - 1], f);
      match f(items[|items| - 1]) case None => front case Some(r) => front + [r]
  }

  lemma {:induction false} NextRowOf(row: nat -> Option<Row>, ds: seq<nat>, d: nat)
    ensures RowsOf(row, ds + [d])
         == match row(d) case None => RowsOf(row, ds) case Some(r) => RowsOf(row, ds) + [r]
  {
    assert (ds + [d])[..|ds|] == ds;
  }

  lemma {:induction false} RowsPrefix(row: nat -> Option<Row>, ds: seq<nat>, k: nat)
    requires k <= |ds|
    ensures RowsOf(row, ds[..k]) <= RowsOf(row, ds)
  {
    if k == |ds| {
      assert ds[..k] == ds;
    } else {
      assert ds[..|ds| - 1][..k] == ds[..k];
      RowsPrefix(row, ds[..|ds| - 1], k);
    }
  }

  lemma {:induction false} RowsAll(row: nat -> Option<Row>, ds: seq<nat>)
    requires forall d :: d in ds ==> row(d).Some?
    ensures |RowsOf(row, ds)| == |ds|
  {
    if ds != [] {
      SplitLast(ds);
      RowsAll(row, ds[..|ds| - 1]);
    }
  }

  /** What a limit on the docids leaves of the rows. */
  lemma {:induction false} RowsCapped(row: nat -> Option<Row>, ds: seq<nat>, limit: Option<nat>)
    ensures RowsOf(row, Cap(ds, limit)) <= RowsOf(row, ds)
    ensures (forall d :: d in ds ==> row(d).Some?) ==> RowsOf(row, Cap(ds, limit)) == Cap(RowsOf(row, ds), limit)
  {
    var some := Cap(ds, limit);
    assert some == ds[..|some|];
    RowsPrefix(row, ds, |some|);
    if forall d :: d in ds ==> row(d).Some? {
      RowsAll(row, ds);
      RowsAll(row, some);
    }
  }

  lemma {:induction false} GrowFilter(d: nat, hit: nat -> bool)
    ensures var front := Candidates.Filter(Candidates.UpTo(d), hit);
            Candidates.Filter(Candidates.UpTo(d + 1), hit) == if hit(d) then front + [d] else front
  {
    assert Candidates.UpTo(d + 1) == Candidates.UpTo(d) + [d];
    Candidates.FilterConcat(Candidates.UpTo(d), [d], hit);
    assert [d][1..] == [];
  }

  /** The rows of the hits of a scan are the listing of the items. */
  lemma {:induction false} RowsAre<T>(items: seq<T>, f: T -> Option<Row>, row: nat -> Option<Row>, hit: nat -> bool,
      n: nat)
    requires n <= |items| && forall d: nat :: d < |items| ==> f(items[d]) == if hit(d) then row(d) else None
    ensures RowsOf(row, Candidates.Filter(Candidates.UpTo(n), hit)) == Listing(items[..n], f)
  {
    if n > 0 {
      var d := n - 1;
      RowsAre(items, f, row, hit, d);
      GrowFilter(d, hit);
      assert items[..n][..d] == items[..d];
      NextRowOf(row, Candidates.Filter(Candidates.UpTo(d), hit), d);
    }
  }

  lemma {:induction false} ListingMembers<T(!new)>(items: seq<T>, f: T -> Option<Row>)
    ensures forall r :: r in Listing(items, f) <==> exists x :: x in items && f(x) == Some(r)
  {
    if items != [] {
      SplitLast(items);
      ListingMembers(items[..|items| - 1], f);
    }
  }

  lemma {:induction false} ListingConcat<T>(a: seq<T>, b: seq<T>, f: T -> Option<Row>)
    ensures Listing(a + b, f) == Listing(a, f) + Listing(b, f)
    decreases |b|
  {
    if b == [] {
      assert a + b == a;
    } else {
      assert (a + b)[..|a + b| - 1] == a + b[..|b| - 1];
      ListingConcat(a, b[..|b| - 1], f);
    }
  }

  lemma {:induction false} NextListed<T>(items: seq<T>, x: T, f: T -> Option<Row>)
    ensures Listing(items + [x], f)
         == match f(x) case None => Listing(items, f) case Some(r) => Listing(items, f) + [r]
  {
    assert (items + [x])[..|items|] == items;
  }

  // ---------------------------------------------------------------- the indexed files

  /** A walk yields no path twice. */
  ghost predicate DistinctPaths(recs: seq<BuildRec>) {
    forall i, j :: 0 <= i < j < |recs| ==> recs[i].path != recs[j].path
  }

  function RowOfRec(r: BuildRec): Row { (r.path, MetaOf(r)) }

  function NameItem(qr: Query): BuildRec -> Option<Row> {
    (r: BuildRec) => if qr.ColdNameHit(r.path) then Some(RowOfRec(r)) else None
  }

  function ContentItem(qr: Query): BuildRec -> Option<Row> {
    (r: BuildRec) => if qr.ContentHit(r.path, r.content) then Some(RowOfRec(r)) else None
  }

  function FileItem(qr: Query): Shard.File -> Option<Row> {
    (f: Shard.File) => if qr.ContentHit(f.path, Some(f.content)) then Some((f.path, f.meta)) else None
  }

  /** The records a query finds by name, and those it finds by content. */
  function NameRows(recs: seq<BuildRec>, qr: Query): seq<Row> { Listing(recs, NameItem(qr)) }

  function ContentRows(recs: seq<BuildRec>, qr: Query): seq<Row> { Listing(recs, ContentItem(qr)) }

  lemma {:induction false} ListingDistinct(recs: seq<BuildRec>, f: BuildRec -> Option<Row>)
    requires DistinctPaths(recs) && forall r :: f(r).Some? ==> f(r).value.0 == r.path
    ensures DistinctRows(Listing(recs, f))
  {
    if recs != [] {
      var n := |recs| - 1;
      ListingDistinct(recs[..n], f);
      ListingMembers(recs[..n], f);
      var front := Listing(recs[..n], f);
      forall i | 0 <= i < |front| ensures front[i].0 != recs[n].path {
        assert front[i] in front;
        var x :| x in recs[..n] && f(x) == Some(front[i]);
        var j :| 0 <= j < n && recs[..n][j] == x;
        assert recs[j].path != recs[n].path;
      }
    }
  }

  /** Searching the content files is searching the records that have content. */
  lemma {:induction false} ContentFileRows(recs: seq<BuildRec>, qr: Query)
    ensures Listing(ContentFiles(recs), FileItem(qr)) == ContentRows(recs, qr)
  {
    if recs != [] {
      var n := |recs| - 1;
      ContentFileRows(recs[..n], qr);
      SplitLast(recs);
      NextListed(recs[..n], recs[n], ContentItem(qr));
      if recs[n].content.Some? {
        var f := Shard.File(recs[n].path, MetaOf(recs[n]), recs[n].content.value);
        NextListed(ContentFiles(recs[..n]), f, FileItem(qr));
      } else {
        assert ContentFiles(recs[..n]) + [] == ContentFiles(recs[..n]);
      }
    }
  }

  // ---------------------------------------------------------------- filename layer

  function NameRow(docs: seq<FileDb.Doc>, qr: Query): nat -> Option<Row> {
    (d: nat) =>
      if d < |docs| && qr.scope(docs[d].path) && (qr.basename ==> O.NameHolds(docs[d].path, qr.q, qr.cs, true))
      then Some((docs[d].path, docs[d].meta)) else None
  }

  function NameDocids(docs: seq<FileDb.Doc>, qr: Query, limit: Option<nat>): seq<nat> {
    Candidates.Scan(|docs|, BoolQuery.Selected(docs, qr.q, qr.cs), limit)
  }

  /** The rows of the filename layer: the docids are cut to the limit before the scope
      and the last component are looked at. */
  function LimitedNames(docs: seq<FileDb.Doc>, qr: Query, limit: Option<nat>): seq<Row> {
    RowsOf(NameRow(docs, qr), NameDocids(docs, qr, limit))
  }

  lemma {:induction false} NamesCapped(recs: seq<BuildRec>, qr: Query, limit: Option<nat>)
    requires qr.wantFn
    ensures LimitedNames(DocsOf(recs), qr, limit) <= NameRows(recs, qr)
    ensures limit.None? ==> LimitedNames(DocsOf(recs), qr, limit) == NameRows(recs, qr)
    ensures qr.Whole() ==> LimitedNames(DocsOf(recs), qr, limit) == Cap(NameRows(recs, qr), limit)
  {
    var docs, hit, row := DocsOf(recs), BoolQuery.Selected(DocsOf(recs), qr.q, qr.cs), NameRow(DocsOf(recs), qr);
    var all := Candidates.Filter(Candidates.UpTo(|docs|), hit);
    NamesAre(recs, qr);
    RowsCapped(row, all, limit);
    Candidates.FilterExact(Candidates.UpTo(|docs|), hit);
  }

  lemma {:induction false} NamesAre(recs: seq<BuildRec>, qr: Query)
    requires qr.wantFn
    ensures LimitedNames(DocsOf(recs), qr, None) == NameRows(recs, qr)
  {
    var hit, row := BoolQuery.Selected(DocsOf(recs), qr.q, qr.cs), NameRow(DocsOf(recs), qr);
    assert recs[..|recs|] == recs;
    RowsAre(recs, NameItem(qr), row, hit, |recs|);
  }

  /** One document of the filename layer, unless its path is out of scope. */
  method ResolveName(db: FileDb.DbReader, h: nat -> nat, d: nat, qr: Query, ghost docs: seq<FileDb.Doc>)
    returns (row: Option<Row>)
    requires db.Valid() && FileDb.Answers(db.img, db.z, h, docs)
    modifies db
    ensures db.Valid() && row == NameRow(docs, qr)(d)
  {
    var path := db.DocPath(d);
    if path.Err? { return None; }
    if !qr.scope(path.value) { return None; }
    if qr.basename {
      var bn := Basename(path.value);
      if !(if qr.cs then Contains(bn, qr.q) else Contains(Fold(bn), Fold(qr.q))) { return None; }
    }
    var meta := db.img.DocMeta(d);
    return Some((path.value, if meta.Ok? then meta.value else NO_META));
  }

  /** What the filename layer leaves in an empty result: `rows`, while there was room. */
  ghost predicate NamesIn(m: Matches, rows: seq<Row>, cap: Option<nat>) {
    Filled(m, map[], Join(RowMap(rows), map[]), cap) && m.Keys == Firsts({}, rows, cap) && WithinCap(|m|, cap)
  }

  method NameLayer(out: Merged, db: FileDb.DbReader, h: nat -> nat, qr: Query, limit: Option<nat>,
      ghost docs: seq<FileDb.Doc>)
    requires db.Valid() && FileDb.Answers(db.img, db.z, h, docs) && out.m == map[]
    requires DistinctRows(LimitedNames(docs, qr, limit))
    modifies out, db
    ensures NamesIn(out.m, LimitedNames(docs, qr, limit), out.cap)
  {
    var r := BoolQuery.ComputeDocids(db, h, qr.q, qr.cs, limit);
    BoolQuery.QueryIsScan(db.img, db.z, h, docs, qr.q, qr.cs, limit);
    MergeNames(out, db, h, if r.Ok? then r.value else [], qr, docs);
  }

  method MergeNames(out: Merged, db: FileDb.DbReader, h: nat -> nat, ds: seq<nat>, qr: Query,
      ghost docs: seq<FileDb.Doc>)
    requires db.Valid() && FileDb.Answers(db.img, db.z, h, docs) && out.m == map[]
    requires DistinctRows(RowsOf(NameRow(docs, qr), ds))
    modifies out, db
    ensures NamesIn(out.m, RowsOf(NameRow(docs, qr), ds), out.cap)
  {
    ghost var row := NameRow(docs, qr);
    NothingFilled(map[], out.cap);
    for i := 0 to |ds|
      invariant db.Valid() && NamesIn(out.m, RowsOf(row, ds[..i]), out.cap)
    {
      if out.cap.Some? && |out.m| >= out.cap.value {
        RowsPrefix(row, ds, i);
        NamesStop(out.m, RowsOf(row, ds[..i]), RowsOf(row, ds), out.cap);
        return;
      }
      PrefixDistinct(row, ds, i);
      var found := ResolveName(db, h, ds[i], qr, docs);
      TakeName(out, found, RowsOf(row, ds[..i]), RowsOf(row, ds[..i + 1]));
    }
    assert ds[..|ds|] == ds;
  }

  lemma {:induction false} PrefixDistinct(row: nat -> Option<Row>, ds: seq<nat>, i: nat)
    requires i < |ds| && DistinctRows(RowsOf(row, ds))
    ensures var rows := RowsOf(row, ds[..i]);
            && RowsOf(row, ds[..i + 1]) == (match row(ds[i]) case None => rows case Some(r) => rows + [r])
            && DistinctRows(RowsOf(row, ds[..i + 1]))
  {
    RowsPrefix(row, ds, i + 1);
    DistinctPrefix(RowsOf(row, ds), RowsOf(row, ds[..i + 1]));
    assert ds[..i + 1] == ds[..i] + [ds[i]];
    NextRowOf(row, ds[..i], ds[i]);
  }

  method TakeName(out: Merged, found: Option<Row>, ghost rows: seq<Row>, ghost next: seq<Row>)
    requires NamesIn(out.m, rows, out.cap) && DistinctRows(next)
    requires next == match found case None => rows case Some(r) => rows + [r]
    modifies out
    ensures NamesIn(out.m, next, out.cap)
  {
    if found.Some? {
      var r := found.value;
      NamesFresh(out.m, rows, r, out.cap);
      ghost var was := out.m;
      out.MergeIn(r.0, r.1, Filename);
      NamesStep(was, out.m, rows, r, out.cap);
    }
  }

  lemma {:induction false} NamesFresh(m: Matches, rows: seq<Row>, r: Row, cap: Option<nat>)
    requires NamesIn(m, rows, cap) && DistinctRows(rows + [r])
    ensures r.0 !in m
  {
    NextRow(rows, r);
  }

  lemma {:induction false} NamesStep(was: Matches, now: Matches, rows: seq<Row>, r: Row, cap: Option<nat>)
    requires NamesIn(was, rows, cap) && DistinctRows(rows + [r]) && WithinCap(|now|, cap)
    requires Takes(was, now, r.0, r.1, Filename, cap)
    ensures NamesIn(now, rows + [r], cap)
  {
    NextRow(rows, r);
    FirstsStep(was, now, {}, rows, r, r.1, Filename, cap);
    var n := RowMap(rows);
    ExtendNames(n, map[], r.0, r.1);
    FillStep(was, now, map[], Join(n, map[]), Join(n[r.0 := r.1], map[]), r.0, r.1, Filename, cap);
  }

  /** Once there is no more room, the rows that are left change nothing. */
  lemma {:induction false} NamesStop(m: Matches, rows: seq<Row>, all: seq<Row>, cap: Option<nat>)
    requires NamesIn(m, rows, cap) && rows <= all && DistinctRows(all) && AtCap(|m|, cap)
    ensures NamesIn(m, all, cap)
  {
    var rest := all[|rows|..];
    assert all == rows + rest && |m| == |m.Keys|;
    FirstsConcat({}, rows, rest, cap);
    FirstsFull(m.Keys, rest, cap);
    PrefixPart(rows, all);
    WiderNames(m, RowMap(rows), RowMap(all), cap);
  }

  lemma {:induction false} PrefixPart(rows: seq<Row>, all: seq<Row>)
    requires rows <= all && DistinctRows(all)
    ensures Part(RowMap(rows), RowMap(all))
  {
    DistinctPrefix(all, rows);
    RowMapEntries(all);
    RowsPart(rows, RowMap(all));
  }

  lemma {:induction false} WiderNames(m: Matches, n: Metas, all: Metas, cap: Option<nat>)
    requires Filled(m, map[], Join(n, map[]), cap) && Part(n, all) && AtCap(|m|, cap)
    ensures Filled(m, map[], Join(all, map[]), cap)
  {
    assert |m| == |m.Keys|;
    forall p | p in m ensures Entry(map[], Join(all, map[]), p, m[p]) {
      assert Entry(map[], Join(n, map[]), p, m[p]);
    }
  }

  // ---------------------------------------------------------------- content layer

  function ShardRow(r: Shard.ShardReader, qr: Query): nat -> Option<Row> {
    (d: nat) =>
      match r.Path(d)
      case Err(_) => None
      case Ok(p) => if !qr.scope(p) then None else Some((p, match r.Meta(d) case Ok(m) => m case Err(_) => NO_META))
  }

  function ShardDocids(r: Shard.ShardReader, h: nat -> nat, qr: Query, limit: Option<nat>): seq<nat> {
    match Candidates.Candidates(r.Source(h), Fold(qr.q), qr.q, qr.cs, limit)
    case Ok(ds) => ds
    case Err(_) => []
  }

  /** The hits of one shard; a shard that does not open has none. */
  function ShardRows(bytes: seq<byte>, h: nat -> nat, qr: Query, limit: Option<nat>): seq<Row> {
    match Shard.Open(bytes)
    case Err(_) => []
    case Ok(r) => RowsOf(ShardRow(r, qr), ShardDocids(r, h, qr, limit))
  }

  /** The hits of all shards; the limit is for each of them. */
  function AllShardRows(srcs: seq<seq<byte>>, h: nat -> nat, qr: Query, limit: Option<nat>): seq<Row> {
    if srcs == [] then []
    else AllShardRows(srcs[..|srcs| - 1], h, qr, limit) + ShardRows(srcs[|srcs| - 1], h, qr, limit)
  }

  method QueryShards(srcs: seq<seq<byte>>, h: nat -> nat, qr: Query, limit: Option<nat>) returns (out: seq<Row>)
    ensures out == AllShardRows(srcs, h, qr, limit)
  {
    out := [];
    for i := 0 to |srcs|
      invariant out == AllShardRows(srcs[..i], h, qr, limit)
    {
      assert srcs[..i + 1][..i] == srcs[..i];
      var rows := QueryShard(srcs[i], h, qr, limit);
      out := out + rows;
    }
    assert srcs[..|srcs|] == srcs;
  }

  method QueryShard(bytes: seq<byte>, h: nat -> nat, qr: Query, limit: Option<nat>) returns (out: seq<Row>)
    ensures out == ShardRows(bytes, h, qr, limit)
  {
    var r := Shard.OpenShard(bytes);
    if r.Err? { return []; }
    var docids := Candidates.ComputeCandidates(r.value.Source(h), Fold(qr.q), qr.q, qr.cs, limit);
    out := ResolveRows(r.value, if docids.Ok? then docids.value else [], qr);
  }

  method ResolveRows(r: Shard.ShardReader, ds: seq<nat>, qr: Query) returns (out: seq<Row>)
    ensures out == RowsOf(ShardRow(r, qr), ds)
  {
    out := [];
    for i := 0 to |ds|
      invariant out == RowsOf(ShardRow(r, qr), ds[..i])
    {
      assert ds[..i + 1][..i] == ds[..i];
      var path := r.Path(ds[i]);
      if path.Err? { continue; }
      if !qr.scope(path.value) { continue; }
      var meta := r.Meta(ds[i]);
      out := out + [(path.value, if meta.Ok? then meta.value else NO_META)];
    }
    assert ds[..|ds|] == ds;
  }

  /** What the content layer leaves in the result, after the names `n`. */
  ghost predicate ContentIn(m: Matches, n: Metas, start: set<Path>, rows: seq<Row>, cap: Option<nat>) {
    Filled(m, map[], Join(n, RowMap(rows)), cap) && m.Keys == Firsts(start, rows, cap) && WithinCap(|m|, cap)
  }

  method MergeRows(out: Merged, rows: seq<Row>, ghost n: Metas)
    requires DistinctRows(rows) && ContentIn(out.m, n, out.m.Keys, [], out.cap)
    modifies out
    ensures ContentIn(out.m, n, old(out.m).Keys, rows, out.cap)
  {
    ghost var start := out.m.Keys;
    for i := 0 to |rows|
      invariant ContentIn(out.m, n, start, rows[..i], out.cap)
    {
      TakeContent(out, rows[i], n, start, rows, i);
    }
    assert rows[..|rows|] == rows;
  }

  method TakeContent(out: Merged, r: Row, ghost n: Metas, ghost start: set<Path>, ghost rows: seq<Row>, ghost i: nat)
    requires i < |rows| && r == rows[i] && DistinctRows(rows) && ContentIn(out.m, n, start, rows[..i], out.cap)
    modifies out
    ensures ContentIn(out.m, n, start, rows[..i + 1], out.cap)
  {
    assert rows[..i + 1] == rows[..i] + [r];
    DistinctPrefix(rows, rows[..i + 1]);
    ghost var was := out.m;
    ghost var x := if r.0 in was then was[r.0].0 else r.1;
    out.MergeIn(r.0, r.1, Content);
    ContentStep(was, out.m, n, start, rows[..i], r, x, out.cap);
  }

  lemma {:induction false} ContentStep(was: Matches, now: Matches, n: Metas, start: set<Path>, rows: seq<Row>, r: Row,
      x: LiteMeta, cap: Option<nat>)
    requires ContentIn(was, n, start, rows, cap) && DistinctRows(rows + [r]) && WithinCap(|now|, cap)
    requires Takes(was, now, r.0, x, Content, cap) && x == if r.0 in was then was[r.0].0 else r.1
    ensures ContentIn(now, n, start, rows + [r], cap)
  {
    NextRow(rows, r);
    FirstsStep(was, now, start, rows, r, x, Content, cap);
    var c := RowMap(rows);
    ExtendContents(n, c, r.0, r.1);
    if r.0 in was { assert Entry(map[], Join(n, c), r.0, was[r.0]); }
    FillStep(was, now, map[], Join(n, c), Join(n, c[r.0 := r.1]), r.0, x, Content, cap);
  }

  // ---------------------------------------------------------------- shards of a build

  ghost predicate ShardOf(bytes: seq<byte>, h: nat -> nat, files: seq<Shard.File>) {
    exists st :: Shard.IsShard(bytes, h, st, files)
  }

  /** The rows that a limited query of a finished shard returns begin the unlimited
      ones; and without a scope they are the first of them. */
  lemma {:induction false} ShardRowsExact(bytes: seq<byte>, h: nat -> nat, files: seq<Shard.File>, qr: Query,
      limit: Option<nat>)
    requires ShardOf(bytes, h, files) && qr.wantCt
    ensures ShardRows(bytes, h, qr, limit) <= Listing(files, FileItem(qr))
    ensures limit.None? ==> ShardRows(bytes, h, qr, limit) == Listing(files, FileItem(qr))
    ensures qr.Unscoped() ==> ShardRows(bytes, h, qr, limit) == Cap(Listing(files, FileItem(qr)), limit)
  {
    var st :| Shard.IsShard(bytes, h, st, files);
    Shard.RoundTrip(bytes, h, st, files);
    Shard.SearchIsScan(bytes, h, st, files, qr.q, qr.cs, limit);
    var r := Shard.Open(bytes).value;
    forall d: nat | d < |files| ensures r.Path(d) == Ok(files[d].path) && r.Meta(d) == Ok(files[d].meta) { }
    CappedFileRows(r, files, qr, limit);
  }

  lemma {:induction false} CappedFileRows(r: Shard.ShardReader, files: seq<Shard.File>, qr: Query, limit: Option<nat>)
    requires forall d: nat :: d < |files| ==> r.Path(d) == Ok(files[d].path) && r.Meta(d) == Ok(files[d].meta)
    requires qr.wantCt
    ensures var rows := RowsOf(ShardRow(r, qr), Candidates.Scan(|files|, Shard.Hits(files, qr.Needle(), qr.cs), limit));
            var all := Listing(files, FileItem(qr));
            && rows <= all && (limit.None? ==> rows == all)
            && (qr.Unscoped() ==> rows == Cap(all, limit))
  {
    var row, hit := ShardRow(r, qr), Shard.Hits(files, qr.Needle(), qr.cs);
    var ds := Candidates.Filter(Candidates.UpTo(|files|), hit);
    assert files[..|files|] == files;
    forall d: nat | d < |files| ensures FileItem(qr)(files[d]) == if hit(d) then row(d) else None {
      assert r.Path(d) == Ok(files[d].path) && r.Meta(d) == Ok(files[d].meta);
    }
    RowsAre(files, FileItem(qr), row, hit, |files|);
    RowsCapped(row, ds, limit);
    Candidates.FilterExact(Candidates.UpTo(|files|), hit);
  }

  /** The loaded shards are finished shards of consecutive groups of files. */
  ghost predicate Holds(srcs: seq<seq<byte>>, groups: seq<seq<Shard.File>>, h: nat -> nat) {
    |srcs| == |groups| && forall k :: 0 <= k < |srcs| ==> ShardOf(srcs[k], h, groups[k])
  }

  lemma {:induction false} HoldsFront(srcs: seq<seq<byte>>, groups: seq<seq<Shard.File>>, h: nat -> nat)
    requires Holds(srcs, groups, h) && srcs != []
    ensures var n := |srcs| - 1; Holds(srcs[..n], groups[..n], h) && ShardOf(srcs[n], h, groups[n])
  {
    var n := |srcs| - 1;
    forall k | 0 <= k < n ensures ShardOf(srcs[..n][k], h, groups[..n][k]) { assert ShardOf(srcs[k], h, groups[k]); }
  }

  lemma {:induction false} AppendedRows(groups: seq<seq<Shard.File>>, last: seq<Shard.File>,
      f: Shard.File -> Option<Row>)
    ensures Listing(Concat(groups + [last]), f) == Listing(Concat(groups), f) + Listing(last, f)
  {
    ConcatAppend(groups, last);
    ListingConcat(Concat(groups), last, f);
  }

  /** All shards together return the matching content files. */
  lemma {:induction false} AllShardRowsExact(srcs: seq<seq<byte>>, groups: seq<seq<Shard.File>>, h: nat -> nat,
      qr: Query)
    requires Holds(srcs, groups, h) && qr.wantCt
    ensures AllShardRows(srcs, h, qr, None) == Listing(Concat(groups), FileItem(qr))
  {
    if srcs != [] {
      var n := |srcs| - 1;
      HoldsFront(srcs, groups, h);
      var front, last := groups[..n], groups[n];
      AllShardRowsExact(srcs[..n], front, h, qr);
      ShardRowsExact(srcs[n], h, last, qr, None);
      SplitLast(groups);
      AppendedRows(front, last, FileItem(qr));
    }
  }

  /** Under a limit, some of them, none twice. */
  lemma {:induction false} AllShardRowsSome(srcs: seq<seq<byte>>, groups: seq<seq<Shard.File>>, h: nat -> nat,
      qr: Query, limit: Option<nat>)
    requires Holds(srcs, groups, h) && qr.wantCt && DistinctRows(Listing(Concat(groups), FileItem(qr)))
    ensures var rows := AllShardRows(srcs, h, qr, limit);
            DistinctRows(rows) && forall r :: r in rows ==> r in Listing(Concat(groups), FileItem(qr))
  {
    if srcs != [] {
      var n := |srcs| - 1;
      HoldsFront(srcs, groups, h);
      var front, last := groups[..n], groups[n];
      SplitLast(groups);
      AppendedRows(front, last, FileItem(qr));
      var a, b := Listing(Concat(front), FileItem(qr)), Listing(last, FileItem(qr));
      ConcatDistinct(a, b);
      AllShardRowsSome(srcs[..n], front, h, qr, limit);
      ShardRowsExact(srcs[n], h, last, qr, limit);
      DistinctPrefix(b, ShardRows(srcs[n], h, qr, limit));
      DistinctConcat(AllShardRows(srcs[..n], h, qr, limit), ShardRows(srcs[n], h, qr, limit));
    }
  }

  /** And of those that the limit drops in a shard, none would have come in anyway. */
  lemma {:induction false} AllShardFirsts(srcs: seq<seq<byte>>, groups: seq<seq<Shard.File>>, h: nat -> nat, qr: Query,
      k: nat, s: set<Path>)
    requires Holds(srcs, groups, h) && qr.wantCt && DistinctRows(Listing(Concat(groups), FileItem(qr)))
    requires qr.Unscoped()
    ensures var all := Listing(Concat(groups), FileItem(qr));
            Firsts(s, AllShardRows(srcs, h, qr, Some(k)), Some(k)) == Firsts(s, all, Some(k))
  {
    if srcs != [] {
      var n := |srcs| - 1;
      HoldsFront(srcs, groups, h);
      var front, last := groups[..n], groups[n];
      SplitLast(groups);
      AppendedRows(front, last, FileItem(qr));
      var a, b := Listing(Concat(front), FileItem(qr)), Listing(last, FileItem(qr));
      ConcatDistinct(a, b);
      AllShardFirsts(srcs[..n], front, h, qr, k, s);
      ShardRowsExact(srcs[n], h, last, qr, Some(k));
      FirstsConcat(s, a, b, Some(k));
      FirstsConcat(s, AllShardRows(srcs[..n], h, qr, Some(k)), Take(b, k), Some(k));
      FirstsTake(Firsts(s, a, Some(k)), b, k);
    }
  }

  // ---------------------------------------------------------------- what a limit takes

  /** The files whose content matches, in order. */
  function MatchingFiles(files: seq<Shard.File>, qr: Query): seq<Shard.File> {
    if files == [] then []
    else
      var front, f := MatchingFiles(files[..|files| - 1], qr), files[|files| - 1];
      if Contains(if qr.cs then f.content else Fold(f.content), qr.Needle()) then front + [f] else front
  }

  /** The files that a limited query of the shards prints: of each shard the first that match,
      up to the limit, wherever their paths lie. */
  function FirstFiles(groups: seq<seq<Shard.File>>, qr: Query, limit: Option<nat>): seq<Shard.File> {
    if groups == [] then []
    else FirstFiles(groups[..|groups| - 1], qr, limit) + Cap(MatchingFiles(groups[|groups| - 1], qr), limit)
  }

  /** `ds` are the places of `some` among the first `n` of `items`. */
  ghost predicate Places<T>(ds: seq<nat>, some: seq<T>, items: seq<T>, n: nat) {
    |ds| == |some| && n <= |items| && forall i :: 0 <= i < |ds| ==> ds[i] < n && some[i] == items[ds[i]]
  }

  /** The matching documents are the matching files. */
  lemma {:induction false} MatchingAre(files: seq<Shard.File>, qr: Query, n: nat)
    requires n <= |files|
    ensures Places(Candidates.Filter(Candidates.UpTo(n), Shard.Hits(files, qr.Needle(), qr.cs)),
                   MatchingFiles(files[..n], qr), files, n)
  {
    if n > 0 {
      var d, hit := n - 1, Shard.Hits(files, qr.Needle(), qr.cs);
      MatchingAre(files, qr, d);
      GrowFilter(d, hit);
      GrowMatching(files, qr, d);
      PlacesStep(Candidates.Filter(Candidates.UpTo(d), hit), MatchingFiles(files[..d], qr), files, d);
    }
  }

  lemma {:induction false} GrowMatching(files: seq<Shard.File>, qr: Query, d: nat)
    requires d < |files|
    ensures var front := MatchingFiles(files[..d], qr);
            MatchingFiles(files[..d + 1], qr)
              == if Shard.Hits(files, qr.Needle(), qr.cs)(d) then front + [files[d]] else front
  {
    assert files[..d + 1][..d] == files[..d];
  }

  lemma {:induction false} PlacesStep<T>(ds: seq<nat>, some: seq<T>, items: seq<T>, d: nat)
    requires Places(ds, some, items, d) && d < |items|
    ensures Places(ds, some, items, d + 1) && Places(ds + [d], some + [items[d]], items, d + 1)
  {
  }

  lemma {:induction false} RowsPlaced<T>(row: nat -> Option<Row>, ds: seq<nat>, some: seq<T>, f: T -> Option<Row>)
    requires |ds| == |some| && forall i :: 0 <= i < |ds| ==> row(ds[i]) == f(some[i])
    ensures RowsOf(row, ds) == Listing(some, f)
  {
    if ds != [] { RowsPlaced(row, ds[..|ds| - 1], some[..|some| - 1], f); }
  }

  /** What a limited query of the shards finds: of each shard its first matching files, as far
      as they are in scope. */
  function ContentsUnder(groups: seq<seq<Shard.File>>, qr: Query, limit: Option<nat>): seq<Row> {
    Listing(FirstFiles(groups, qr, limit), FileItem(qr))
  }

  lemma {:induction false} ShardRowsAre(bytes: seq<byte>, h: nat -> nat, files: seq<Shard.File>, qr: Query,
      limit: Option<nat>)
    requires ShardOf(bytes, h, files) && qr.wantCt
    ensures ShardRows(bytes, h, qr, limit) == Listing(Cap(MatchingFiles(files, qr), limit), FileItem(qr))
  {
    var st :| Shard.IsShard(bytes, h, st, files);
    Shard.RoundTrip(bytes, h, st, files);
    Shard.SearchIsScan(bytes, h, st, files, qr.q, qr.cs, limit);
    var r := Shard.Open(bytes).value;
    forall d: nat | d < |files| ensures r.Path(d) == Ok(files[d].path) && r.Meta(d) == Ok(files[d].meta) { }
    PlacedRows(r, files, qr, limit);
  }

  lemma {:induction false} PlacedRows(r: Shard.ShardReader, files: seq<Shard.File>, qr: Query, limit: Option<nat>)
    requires forall d: nat :: d < |files| ==> r.Path(d) == Ok(files[d].path) && r.Meta(d) == Ok(files[d].meta)
    requires qr.wantCt
    ensures RowsOf(ShardRow(r, qr), Candidates.Scan(|files|, Shard.Hits(files, qr.Needle(), qr.cs), limit))
         == Listing(Cap(MatchingFiles(files, qr), limit), FileItem(qr))
  {
    var hit, row := Shard.Hits(files, qr.Needle(), qr.cs), ShardRow(r, qr);
    var all, some := Candidates.Filter(Candidates.UpTo(|files|), hit), MatchingFiles(files, qr);
    MatchingAre(files, qr, |files|);
    assert files[..|files|] == files;
    Candidates.FilterExact(Candidates.UpTo(|files|), hit);
    forall i | 0 <= i < |all| ensures i < |some| && row(all[i]) == FileItem(qr)(some[i]) {
      var d := all[i];
      assert d in all && hit(d) && r.Path(d) == Ok(files[d].path) && r.Meta(d) == Ok(files[d].meta);
    }
    RowsPlaced(row, Cap(all, limit), Cap(some, limit), FileItem(qr));
  }

  lemma {:induction false} AllShardRowsAre(srcs: seq<seq<byte>>, groups: seq<seq<Shard.File>>, h: nat -> nat, qr: Query,
      limit: Option<nat>)
    requires Holds(srcs, groups, h) && qr.wantCt
    ensures AllShardRows(srcs, h, qr, limit) == ContentsUnder(groups, qr, limit)
  {
    if srcs != [] {
      var n := |srcs| - 1;
      HoldsFront(srcs, groups, h);
      AllShardRowsAre(srcs[..n], groups[..n], h, qr, limit);
      ShardRowsAre(srcs[n], h, groups[n], qr, limit);
      ListingConcat(FirstFiles(groups[..n], qr, limit), Cap(MatchingFiles(groups[n], qr), limit), FileItem(qr));
    }
  }

  /** The records that the database selects for the text, in order. */
  function SelectedRecs(recs: seq<BuildRec>, qr: Query): seq<BuildRec> {
    if recs == [] then []
    else
      var front, r := SelectedRecs(recs[..|recs| - 1], qr), recs[|recs| - 1];
      if BoolQuery.Selects(r.path, qr.q, qr.cs) then front + [r] else front
  }

  /** What a limited query of the names finds: the first selected records, as far as they are
      in scope and their last component matches where that is asked for. */
  function NamesUnder(recs: seq<BuildRec>, qr: Query, limit: Option<nat>): seq<Row> {
    Listing(Cap(SelectedRecs(recs, qr), limit), NameItem(qr))
  }

  lemma {:induction false} GrowSelected(recs: seq<BuildRec>, qr: Query, d: nat)
    requires d < |recs|
    ensures var front := SelectedRecs(recs[..d], qr);
            SelectedRecs(recs[..d + 1], qr)
              == if BoolQuery.Selected(DocsOf(recs), qr.q, qr.cs)(d) then front + [recs[d]] else front
  {
    assert recs[..d + 1][..d] == recs[..d];
  }

  lemma {:induction false} SelectedAre(recs: seq<BuildRec>, qr: Query, n: nat)
    requires n <= |recs|
    ensures Places(Candidates.Filter(Candidates.UpTo(n), BoolQuery.Selected(DocsOf(recs), qr.q, qr.cs)),
                   SelectedRecs(recs[..n], qr), recs, n)
  {
    if n > 0 {
      var d, hit := n - 1, BoolQuery.Selected(DocsOf(recs), qr.q, qr.cs);
      SelectedAre(recs, qr, d);
      GrowFilter(d, hit);
      GrowSelected(recs, qr, d);
      PlacesStep(Candidates.Filter(Candidates.UpTo(d), hit), SelectedRecs(recs[..d], qr), recs, d);
    }
  }

  lemma {:induction false} LimitedNamesAre(recs: seq<BuildRec>, qr: Query, limit: Option<nat>)
    requires qr.wantFn
    ensures LimitedNames(DocsOf(recs), qr, limit) == NamesUnder(recs, qr, limit)
  {
    var docs, hit, row := DocsOf(recs), BoolQuery.Selected(DocsOf(recs), qr.q, qr.cs), NameRow(DocsOf(recs), qr);
    var all, some := Candidates.Filter(Candidates.UpTo(|docs|), hit), SelectedRecs(recs, qr);
    SelectedAre(recs, qr, |recs|);
    assert recs[..|recs|] == recs;
    Candidates.FilterExact(Candidates.UpTo(|docs|), hit);
    forall i | 0 <= i < |all| ensures i < |some| && row(all[i]) == NameItem(qr)(some[i]) {
      assert all[i] in all && hit(all[i]);
    }
    RowsPlaced(row, Cap(all, limit), Cap(some, limit), NameItem(qr));
  }

  lemma {:induction false} FirstFilesWithin(groups: seq<seq<Shard.File>>, qr: Query, limit: Option<nat>)
    ensures forall f :: f in FirstFiles(groups, qr, limit) ==> f in Concat(groups)
  {
    if groups != [] {
      var n := |groups| - 1;
      SplitLast(groups);
      ConcatAppend(groups[..n], groups[n]);
      FirstFilesWithin(groups[..n], qr, limit);
      MatchingWithin(groups[n], qr);
    }
  }

  lemma {:induction false} MatchingWithin(files: seq<Shard.File>, qr: Query)
    ensures forall f :: f in MatchingFiles(files, qr) ==> f in files
  {
    if files != [] { MatchingWithin(files[..|files| - 1], qr); }
  }

  lemma {:induction false} SelectedWithin(recs: seq<BuildRec>, qr: Query)
    ensures forall r :: r in SelectedRecs(recs, qr) ==> r in recs
  {
    if recs != [] { SelectedWithin(recs[..|recs| - 1], qr); }
  }

  /** A limit adds no row. */
  lemma {:induction false} UnderWithin(names: seq<BuildRec>, groups: seq<seq<Shard.File>>, qr: Query, ln: Option<nat>,
      lc: Option<nat>)
    ensures forall r :: r in NamesUnder(names, qr, ln) ==> r in NameRows(names, qr)
    ensures forall r :: r in ContentsUnder(groups, qr, lc) ==> r in Listing(Concat(groups), FileItem(qr))
  {
    SelectedWithin(names, qr);
    FirstFilesWithin(groups, qr, lc);
    ListingMembers(Cap(SelectedRecs(names, qr), ln), NameItem(qr));
    ListingMembers(names, NameItem(qr));
    ListingMembers(FirstFiles(groups, qr, lc), FileItem(qr));
    ListingMembers(Concat(groups), FileItem(qr));
  }

  // ---------------------------------------------------------------- loading

  /** The shards that a manifest lists; one that is missing is skipped. */
  function Listed(dir: Dir, entries: seq<Manifest.ShardEntry>): seq<seq<byte>> {
    if entries == [] then []
    else
      var front, file := Listed(dir, entries[..|entries| - 1]), entries[|entries| - 1].file;
      if file in dir then front + [dir[file]] else front
  }

  function LoadedSet(dir: Dir): seq<seq<byte>> {
    if MANIFEST_NAME !in dir then []
    else match Manifest.Decode(dir[MANIFEST_NAME]) case None => [] case Some(m) => Listed(dir, m.shards)
  }

  method LoadShardSet(dir: Dir) returns (sources: seq<seq<byte>>)
    ensures sources == LoadedSet(dir)
  {
    sources := [];
    if MANIFEST_NAME !in dir { return; }
    var m := Manifest.DecodeManifest(dir[MANIFEST_NAME]);
    if m.None? { return; }
    var entries := m.value.shards;
    for i := 0 to |entries|
      invariant sources == Listed(dir, entries[..i])
    {
      assert entries[..i + 1][..i] == entries[..i];
      if entries[i].file in dir { sources := sources + [dir[entries[i].file]]; }
    }
    assert entries[..|entries|] == entries;
  }

  lemma {:induction false} ListedAll(dir: Dir, entries: seq<Manifest.ShardEntry>)
    requires forall e :: e in entries ==> e.file in dir
    ensures |Listed(dir, entries)| == |entries|
    ensures forall k :: 0 <= k < |entries| ==> Listed(dir, entries)[k] == dir[entries[k].file]
  {
    if entries != [] {
      SplitLast(entries);
      ListedAll(dir, entries[..|entries| - 1]);
    }
  }

  lemma {:induction false} ShardThere(dir: Dir, entries: seq<Manifest.ShardEntry>, groups: seq<seq<Shard.File>>,
      h: nat -> nat, time: nat, k: nat)
    requires Written(dir, entries, groups, h, time) && k < |entries|
    ensures entries[k].file in dir && (|dir[entries[k].file]| < U32 ==> ShardOf(dir[entries[k].file], h, groups[k]))
  {
    assert WrittenShard(dir, entries[k], groups[k], h, time);
  }

  lemma {:induction false} ListedHolds(dir: Dir, entries: seq<Manifest.ShardEntry>, groups: seq<seq<Shard.File>>,
      h: nat -> nat, time: nat)
    requires Written(dir, entries, groups, h, time)
    requires forall e :: e in entries && e.file in dir ==> |dir[e.file]| < U32
    ensures Holds(Listed(dir, entries), groups, h)
  {
    forall e | e in entries ensures e.file in dir {
      var k :| 0 <= k < |entries| && entries[k] == e;
      ShardThere(dir, entries, groups, h, time, k);
    }
    ListedAll(dir, entries);
    forall k | 0 <= k < |entries| ensures ShardOf(Listed(dir, entries)[k], h, groups[k]) {
      ShardThere(dir, entries, groups, h, time, k);
    }
  }

  /** The shards that the manifest lists stay below 32-bit offsets. */
  ghost predicate ShardsFit(dir: Dir) {
    && MANIFEST_NAME in dir && Manifest.Decode(dir[MANIFEST_NAME]).Some?
    && forall e :: e in Manifest.Decode(dir[MANIFEST_NAME]).value.shards && e.file in dir ==> |dir[e.file]| < U32
  }

  /** Loading what a build wrote yields the shards of its groups. */
  lemma {:induction false} LoadedHolds(out: IndexFiles, recs: seq<BuildRec>, flush: nat, h: nat -> nat,
      z: FileDb.Zstd, time: nat)
    requires Indexes(out, recs, flush, h, z, time) && ShardsFit(out.dir)
    ensures Holds(LoadedSet(out.dir), Groups(ContentFiles(recs), flush), h)
  {
    var entries := Manifest.Decode(out.dir[MANIFEST_NAME]).value.shards;
    ListedHolds(out.dir, entries, Groups(ContentFiles(recs), flush), h, time);
  }

  /** What a build wrote answers for the records it was built from. */
  lemma {:induction false} BuiltAnswers(out: IndexFiles, recs: seq<BuildRec>, flush: nat, h: nat -> nat,
      z: FileDb.Zstd, time: nat)
    requires Indexes(out, recs, flush, h, z, time)
    requires |out.db| < U64 && FileDb.Fits(z, DocsOf(recs)) && FileDb.Lossless(z) && ShardsFit(out.dir)
    ensures FileDb.Open(out.db).Ok? && FileDb.Answers(FileDb.Open(out.db).value, z, h, DocsOf(recs))
    ensures var groups := Groups(ContentFiles(recs), flush);
            Concat(groups) == ContentFiles(recs) && Holds(LoadedSet(out.dir), groups, h)
  {
    FileDb.RoundTrip(out.db, h, z, time, DocsOf(recs));
    LoadedHolds(out, recs, flush, h, z, time);
    BuildPartitions(ContentFiles(recs), flush);
  }
}
