/** One query over one database entry: the filename layer, the content shards and the
    hot overlay, merged by path. */
module QueryEntry {
  import opened Prelude
  import opened Bytes
  import opened Text
  import opened Records
  import opened ContentBuild
  import opened Merge
  import opened ColdLayers
  import O = Overlay
  import BoolQuery
  import FileDb
  import Shard

  // ---------------------------------------------------------------- meaning

  datatype FileState = FileState(meta: LiteMeta, content: Option<seq<byte>>)

  type Files = map<Path, FileState>

  function FilesOf(recs: seq<BuildRec>): Files {
    if recs == [] then map[]
    else
      var n := |recs| - 1;
      FilesOf(recs[..n])[recs[n].path := FileState(MetaOf(recs[n]), recs[n].content)]
  }

  /** What a hit is: the name, or its last component, or the content has the text of the query as
      a part, letters of either case being the same unless the query tells them apart. */
  lemma {:induction false} HitIsPart(qr: Query, p: Path, content: Option<seq<byte>>)
    ensures qr.NameHit(p) <==>
      qr.wantFn && qr.scope(p) && HasPart(if qr.basename then Basename(p) else p, qr.q, qr.cs)
    ensures qr.ContentHit(p, content) <==>
      qr.wantCt && qr.scope(p) && content.Some? && HasPart(content.value, qr.q, qr.cs)
  {
    var name := if qr.basename then Basename(p) else p;
    if qr.cs { ContainsPart(name, qr.q); } else { FoldedPart(name, qr.q); }
    if content.Some? {
      if qr.cs { ContainsPart(content.value, qr.q); } else { FoldedPart(content.value, qr.q); }
    }
  }

  lemma {:induction false} UpdatedAt(files: Files, v: O.View, p: Path)
    ensures Lookup(Updated(files, v), p) ==
      if p !in v then Lookup(files, p) else if v[p].Live? then Some(FileState(v[p].meta, v[p].content)) else None
  {
  }

  /** What a filename database knows of the files. */
  function MetasOf(files: Files): Metas { map p | p in files :: files[p].meta }

  /** The files after the changes that the overlay holds. */
  function Updated(files: Files, v: O.View): Files {
    map p | p in files.Keys + v.Keys && (p in v ==> v[p].Live?) ::
      if p in v then FileState(v[p].meta, v[p].content) else files[p]
  }

  predicate Matching(qr: Query, p: Path, f: FileState) { qr.NameHit(p) || qr.ContentHit(p, f.content) }

  function KindOf(qr: Query, p: Path, f: FileState): Kind {
    if qr.NameHit(p) && qr.ContentHit(p, f.content) then Both else if qr.NameHit(p) then Filename else Content
  }

  /** The linear scan that a query must agree with. */
  function ScanFiles(qr: Query, files: Files): Matches {
    map p | p in files && Matching(qr, p, files[p]) :: (files[p].meta, KindOf(qr, p, files[p]))
  }

  // ---------------------------------------------------------------- the layers

  function ColdNames(qr: Query, names: Metas): Metas { map p | p in names && qr.ColdNameHit(p) :: names[p] }

  function ColdContents(qr: Query, files: Files): Metas {
    map p | p in files && qr.ContentHit(p, files[p].content) :: files[p].meta
  }

  function HotNames(qr: Query, v: O.View): Metas { map p | p in v && v[p].Live? && qr.NameHit(p) :: v[p].meta }

  function HotContents(qr: Query, v: O.View): Metas {
    map p | p in v && v[p].Live? && qr.ContentHit(p, v[p].content) :: v[p].meta
  }

  /** The entries that the overlay does not shadow. */
  function Unshadowed(n: Metas, v: O.View): Metas { map p | p in n && p !in v :: n[p] }

  function AllNames(qr: Query, names: Metas, v: O.View): Metas { Unshadowed(ColdNames(qr, names), v) + HotNames(qr, v) }

  function AllContents(qr: Query, files: Files, v: O.View): Metas {
    Unshadowed(ColdContents(qr, files), v) + HotContents(qr, v)
  }

  /** What the layers find together, for any text: the names of paths that the overlay
      does not shadow are judged as the database does, the others as the overlay does. */
  function LayerScan(qr: Query, names: Metas, files: Files, v: O.View): Matches {
    Join(AllNames(qr, names, v), AllContents(qr, files, v))
  }

  function Lookup<T>(m: map<Path, T>, p: Path): Option<T> { if p in m then Some(m[p]) else None }

  function Named(f: Option<FileState>): Option<LiteMeta> { if f.Some? then Some(f.value.meta) else None }

  /** The cold layers tell the same of `p`, or the overlay shadows it. */
  predicate AgreeAt(names: Metas, files: Files, v: O.View, p: Path) {
    p in v || Lookup(names, p) == Named(Lookup(files, p))
  }

  ghost predicate Agree(names: Metas, files: Files, v: O.View) { forall p :: AgreeAt(names, files, v, p) }

  lemma {:induction false} OneBuildAgrees(files: Files, v: O.View)
    ensures Agree(MetasOf(files), files, v)
  {
  }

  /** What a scan finds for `p`. */
  function Expect(qr: Query, f: Option<FileState>, p: Path): Option<(LiteMeta, Kind)> {
    if f.Some? && Matching(qr, p, f.value) then Some((f.value.meta, KindOf(qr, p, f.value))) else None
  }

  lemma {:induction false} ScanCell(qr: Query, files: Files, p: Path)
    ensures Lookup(ScanFiles(qr, files), p) == Expect(qr, Lookup(files, p), p)
  {
  }

  lemma {:induction false} FoldSuffix(p: seq<byte>, i: nat)
    requires i <= |p|
    ensures Fold(p)[i..] == Fold(p[i..])
  {
  }

  lemma {:induction false} ContainsInSuffix(p: seq<byte>, i: nat, needle: seq<byte>)
    requires i <= |p| && Contains(p[i..], needle)
    ensures Contains(p, needle)
  {
    var k :| 0 <= k <= |p[i..]| && Occurs(p[i..], needle, k);
    assert p[i + k..i + k + |needle|] == p[i..][k..k + |needle|];
    assert Occurs(p, needle, i + k);
  }

  /** A path whose last component matches matches itself. */
  lemma {:induction false} BasenameMatches(p: Path, q: seq<byte>, cs: bool)
    requires O.NameHolds(p, q, cs, true)
    ensures BoolQuery.Matches(p, q, cs)
  {
    var dir := BasenameExact(p);
    var i := |dir|;
    assert p[i..] == Basename(p);
    if cs {
      ContainsInSuffix(p, i, q);
    } else {
      FoldSuffix(p, i);
      ContainsInSuffix(Fold(p), i, Fold(q));
    }
  }

  lemma {:induction false} PlainName(qr: Query, p: Path)
    requires qr.Plain()
    ensures qr.ColdNameHit(p) <==> qr.NameHit(p)
  {
    if qr.wantFn && O.NameHolds(p, qr.q, qr.cs, true) { BasenameMatches(p, qr.q, qr.cs); }
  }

  /** Where the cold layers agree about a path, the layers find of it what a scan finds. */
  lemma {:induction false} LayerCell(qr: Query, names: Metas, files: Files, v: O.View, p: Path)
    requires qr.Plain() && AgreeAt(names, files, v, p)
    ensures Lookup(LayerScan(qr, names, files, v), p) == Expect(qr, Lookup(Updated(files, v), p), p)
  {
    PlainName(qr, p);
    if p in v { ShadowedCell(qr, names, files, v, p); } else { UnshadowedCell(qr, names, files, v, p); }
  }

  lemma {:induction false} ShadowedCell(qr: Query, names: Metas, files: Files, v: O.View, p: Path)
    requires p in v
    ensures Lookup(LayerScan(qr, names, files, v), p) == Expect(qr, Lookup(Updated(files, v), p), p)
  {
    var n, c := AllNames(qr, names, v), AllContents(qr, files, v);
    assert p in n <==> v[p].Live? && qr.NameHit(p);
    assert p in c <==> v[p].Live? && qr.ContentHit(p, v[p].content);
  }

  lemma {:induction false} UnshadowedCell(qr: Query, names: Metas, files: Files, v: O.View, p: Path)
    requires p !in v && (qr.ColdNameHit(p) <==> qr.NameHit(p)) && Lookup(names, p) == Named(Lookup(files, p))
    ensures Lookup(LayerScan(qr, names, files, v), p) == Expect(qr, Lookup(Updated(files, v), p), p)
  {
    var n, c := AllNames(qr, names, v), AllContents(qr, files, v);
    assert p in n <==> p in files && qr.NameHit(p);
    assert p in c <==> p in files && qr.ContentHit(p, files[p].content);
  }

  lemma {:induction false} SameMap<T>(a: map<Path, T>, b: map<Path, T>)
    requires forall p :: Lookup(a, p) == Lookup(b, p)
    ensures a == b
  {
    forall p ensures p in a <==> p in b { assert Lookup(a, p) == Lookup(b, p); }
    forall p | p in a ensures a[p] == b[p] { assert Lookup(a, p) == Lookup(b, p); }
  }

  /** The layers of a plain query, when the cold ones agree, are the scan of the updated
      files: kinds and metadata included. */
  lemma {:induction false} LayersAreScan(qr: Query, names: Metas, files: Files, v: O.View)
    requires qr.Plain() && Agree(names, files, v)
    ensures LayerScan(qr, names, files, v) == ScanFiles(qr, Updated(files, v))
  {
    var layers, scan := LayerScan(qr, names, files, v), ScanFiles(qr, Updated(files, v));
    forall p ensures Lookup(layers, p) == Lookup(scan, p) {
      LayerCell(qr, names, files, v, p);
      ScanCell(qr, Updated(files, v), p);
    }
    SameMap(layers, scan);
  }

  /** Exactly the plain queries are answered so whatever the files are, among those for
      full paths without a scope. */
  lemma {:induction false} PlainIff(qr: Query)
    requires qr.Whole()
    ensures qr.Plain() <==>
      forall files, v :: LayerScan(qr, MetasOf(files), files, v) == ScanFiles(qr, Updated(files, v))
  {
    if qr.Plain() {
      forall files, v ensures LayerScan(qr, MetasOf(files), files, v) == ScanFiles(qr, Updated(files, v)) {
        OneBuildAgrees(files, v);
        LayersAreScan(qr, MetasOf(files), files, v);
      }
    } else {
      var p := UnplainPath(qr);
      var f := FileState(NO_META, None);
      var files: Files, v: O.View := map[p := f], map[];
      assert Lookup(Updated(files, v), p) == Some(f);
      ScanCell(qr, Updated(files, v), p);
      assert p in LayerScan(qr, MetasOf(files), files, v) <==> qr.ColdNameHit(p);
      assert LayerScan(qr, MetasOf(files), files, v) != ScanFiles(qr, Updated(files, v));
    }
  }

  /** A path whose name the two layers judge differently. */
  lemma {:induction false} UnplainPath(qr: Query) returns (p: Path)
    requires qr.Whole() && !qr.Plain()
    ensures qr.ColdNameHit(p) != qr.NameHit(p)
  {
    if qr.q == [] {
      p := [];
      BoolQuery.MatchesItself([], qr.cs);
    } else {
      BoolQuery.SingleWordIff(qr.q, qr.cs);
      p :| BoolQuery.Selects(p, qr.q, qr.cs) != BoolQuery.Matches(p, qr.q, qr.cs);
    }
  }

  // ---------------------------------------------------------------- rows of the indexed files

  lemma {:induction false} FilesAt(recs: seq<BuildRec>, i: nat)
    requires DistinctPaths(recs) && i < |recs|
    ensures Lookup(FilesOf(recs), recs[i].path) == Some(FileState(MetaOf(recs[i]), recs[i].content))
  {
    var n := |recs| - 1;
    if i < n {
      assert recs[..n][i] == recs[i] && recs[i].path != recs[n].path;
      FilesAt(recs[..n], i);
    }
  }

  /** What a query tells of an indexed file that has not changed: the fields of its record, and
      each layer that finds it. */
  lemma {:induction false} RecordFound(recs: seq<BuildRec>, i: nat, v: O.View, qr: Query)
    requires DistinctPaths(recs) && i < |recs| && recs[i].path !in v
    ensures var r, found := recs[i], Lookup(ScanFiles(qr, Updated(FilesOf(recs), v)), recs[i].path);
            && (found.Some? <==> qr.NameHit(r.path) || qr.ContentHit(r.path, r.content))
            && (found.Some? ==>
                  var (m, kind) := found.value;
                  && m.isDir == r.isDir && m.size == r.size && m.mtime == r.mtime
                  && (kind.ByName() <==> qr.NameHit(r.path))
                  && (kind.ByContent() <==> qr.ContentHit(r.path, r.content)))
  {
    FilesAt(recs, i);
    UpdatedAt(FilesOf(recs), v, recs[i].path);
    ScanCell(qr, Updated(FilesOf(recs), v), recs[i].path);
  }

  lemma {:induction false} FilesFrom(recs: seq<BuildRec>, p: Path) returns (i: nat)
    requires p in FilesOf(recs)
    ensures i < |recs| && recs[i].path == p
  {
    var n := |recs| - 1;
    if recs[n].path == p { i := n; } else { i := FilesFrom(recs[..n], p); }
  }

  lemma {:induction false} RecsListed(recs: seq<BuildRec>, f: BuildRec -> Option<Row>, want: Metas)
    requires DistinctPaths(recs) && forall r :: f(r).Some? ==> f(r).value == RowOfRec(r)
    requires forall i :: 0 <= i < |recs| ==>
      Lookup(want, recs[i].path) == if f(recs[i]).Some? then Some(MetaOf(recs[i])) else None
    requires want.Keys <= FilesOf(recs).Keys
    ensures Lists(Listing(recs, f), want)
  {
    var rows := Listing(recs, f);
    ListingDistinct(recs, f);
    ListingMembers(recs, f);
    forall r | r in rows ensures r.0 in want && want[r.0] == r.1 {
      var x :| x in recs && f(x) == Some(r);
      var i :| 0 <= i < |recs| && recs[i] == x;
      assert Lookup(want, recs[i].path) == Some(MetaOf(recs[i]));
    }
    forall p | p in want ensures exists r :: r in rows && r.0 == p {
      var i := FilesFrom(recs, p);
      assert Lookup(want, recs[i].path) == Some(want[p]);
      assert recs[i] in recs && f(recs[i]) == Some(RowOfRec(recs[i]));
    }
  }

  lemma {:induction false} NamesListed(recs: seq<BuildRec>, qr: Query)
    requires DistinctPaths(recs)
    ensures Lists(NameRows(recs, qr), ColdNames(qr, MetasOf(FilesOf(recs))))
  {
    var want := ColdNames(qr, MetasOf(FilesOf(recs)));
    forall i | 0 <= i < |recs|
      ensures Lookup(want, recs[i].path) == if NameItem(qr)(recs[i]).Some? then Some(MetaOf(recs[i])) else None
    {
      FilesAt(recs, i);
    }
    RecsListed(recs, NameItem(qr), want);
  }

  lemma {:induction false} ContentsListed(recs: seq<BuildRec>, qr: Query)
    requires DistinctPaths(recs)
    ensures Lists(ContentRows(recs, qr), ColdContents(qr, FilesOf(recs)))
  {
    var want := ColdContents(qr, FilesOf(recs));
    forall i | 0 <= i < |recs|
      ensures Lookup(want, recs[i].path) == if ContentItem(qr)(recs[i]).Some? then Some(MetaOf(recs[i])) else None
    {
      FilesAt(recs, i);
    }
    RecsListed(recs, ContentItem(qr), want);
  }

  // ---------------------------------------------------------------- cold layers

  /** The limits of a query: on the docids of the filename layer, on the hits of each
      other source, and on the result. */
  datatype Limits = Limits(names: Option<nat>, each: Option<nat>, cap: Option<nat>) {
    predicate Even() { names == each == cap && cap.Some? }
  }

  const NO_LIMITS := Limits(None, None, None)

  /** How a request sets them: the filename layer is not cut under a scope, nor the
      result under filters. */
  function LimitsOf(limit: Option<nat>, scoped: bool, filtered: bool): (lim: Limits)
    ensures limit.None? ==> lim == NO_LIMITS
    ensures limit.Some? && !scoped && !filtered ==> lim.Even()
    ensures lim.each == limit && (filtered ==> lim.cap.None?)
  {
    Limits(if scoped then None else limit, limit, if filtered then None else limit)
  }

  /** A filename database built from `recs`. */
  ghost predicate NameDb(db: FileDb.DbReader, h: nat -> nat, recs: seq<BuildRec>)
    reads db
  {
    db.Valid() && FileDb.Answers(db.img, db.z, h, DocsOf(recs)) && DistinctPaths(recs)
  }

  /** Content shards built from `recs`, one for each group of content files. */
  ghost predicate ShardSet(srcs: seq<seq<byte>>, groups: seq<seq<Shard.File>>, h: nat -> nat, recs: seq<BuildRec>) {
    DistinctPaths(recs) && Concat(groups) == ContentFiles(recs) && Holds(srcs, groups, h)
  }

  /** All that a query finds in the cold layers, in the order it comes in. */
  function ColdRows(qr: Query, names: seq<BuildRec>, recs: seq<BuildRec>): seq<Row> {
    NameRows(names, qr) + ContentRows(recs, qr)
  }

  /** What it finds there under limits. */
  function ColdUnder(qr: Query, names: seq<BuildRec>, groups: seq<seq<Shard.File>>, lim: Limits): seq<Row> {
    NamesUnder(names, qr, lim.names) + ContentsUnder(groups, qr, lim.each)
  }

  lemma {:induction false} NameRowsLimited(recs: seq<BuildRec>, qr: Query, limit: Option<nat>)
    requires DistinctPaths(recs) && qr.wantFn
    ensures var rows, want := NamesUnder(recs, qr, limit), ColdNames(qr, MetasOf(FilesOf(recs)));
            DistinctRows(rows) && Part(RowMap(rows), want) && (limit.None? ==> RowMap(rows) == want)
    ensures limit.None? ==> NamesUnder(recs, qr, limit) == NameRows(recs, qr)
    ensures limit.Some? && qr.Whole() ==>
      Firsts({}, NamesUnder(recs, qr, limit), limit) == Firsts({}, NameRows(recs, qr), limit)
  {
    var rows, all := NamesUnder(recs, qr, limit), NameRows(recs, qr);
    var want := ColdNames(qr, MetasOf(FilesOf(recs)));
    LimitedNamesAre(recs, qr, limit);
    NamesCapped(recs, qr, limit);
    NamesListed(recs, qr);
    DistinctPrefix(all, rows);
    RowsPart(rows, want);
    ListsMap(all, want);
    if limit.Some? && qr.Whole() { FirstsTake({}, all, limit.value); }
  }

  lemma {:induction false} ContentRowsLimited(srcs: seq<seq<byte>>, groups: seq<seq<Shard.File>>, h: nat -> nat,
      recs: seq<BuildRec>, qr: Query, limit: Option<nat>)
    requires ShardSet(srcs, groups, h, recs) && qr.wantCt
    ensures var rows, want := ContentsUnder(groups, qr, limit), ColdContents(qr, FilesOf(recs));
            && AllShardRows(srcs, h, qr, limit) == rows && DistinctRows(rows) && Part(RowMap(rows), want)
            && (limit.None? ==> RowMap(rows) == want && rows == ContentRows(recs, qr))
  {
    var rows, want := ContentsUnder(groups, qr, limit), ColdContents(qr, FilesOf(recs));
    AllShardRowsAre(srcs, groups, h, qr, limit);
    ContentFileRows(recs, qr);
    ContentsListed(recs, qr);
    AllShardRowsSome(srcs, groups, h, qr, limit);
    RowsPart(rows, want);
    if limit.None? {
      AllShardRowsExact(srcs, groups, h, qr);
      ListsMap(rows, want);
    }
  }

  /** What the cold layers leave of the `names` and `contents` they hold: without a limit
      all, and of the rows that the limits leave the paths that came while there was room. */
  ghost predicate ColdResult(m: Matches, n: Metas, c: Metas, names: Metas, contents: Metas, rows: seq<Row>,
      lim: Limits) {
    && Part(n, names) && Part(c, contents)
    && (lim.names.None? ==> n == names) && (lim.each.None? ==> c == contents)
    && Filled(m, map[], Join(n, c), lim.cap) && WithinCap(|m|, lim.cap)
    && m.Keys == Firsts({}, rows, lim.cap)
  }

  method ColdQuery(out: Merged, db: FileDb.DbReader, srcs: seq<seq<byte>>, h: nat -> nat, qr: Query, lim: Limits,
      ghost names: seq<BuildRec>, ghost groups: seq<seq<Shard.File>>, ghost recs: seq<BuildRec>)
    returns (ghost n: Metas, ghost c: Metas)
    requires NameDb(db, h, names) && ShardSet(srcs, groups, h, recs) && out.m == map[] && out.cap == lim.cap
    modifies out, db
    ensures var nn, cc := ColdNames(qr, MetasOf(FilesOf(names))), ColdContents(qr, FilesOf(recs));
            ColdResult(out.m, n, c, nn, cc, ColdUnder(qr, names, groups, lim), lim)
  {
    n := QueryNames(out, db, h, qr, lim, names);
    c := QueryContents(out, srcs, h, qr, lim, n, groups, recs);
    FirstsConcat({}, NamesUnder(names, qr, lim.names), ContentsUnder(groups, qr, lim.each), lim.cap);
  }

  method QueryNames(out: Merged, db: FileDb.DbReader, h: nat -> nat, qr: Query, lim: Limits, ghost names: seq<BuildRec>)
    returns (ghost n: Metas)
    requires NameDb(db, h, names) && out.m == map[] && out.cap == lim.cap
    modifies out, db
    ensures Part(n, ColdNames(qr, MetasOf(FilesOf(names))))
    ensures lim.names.None? ==> n == ColdNames(qr, MetasOf(FilesOf(names)))
    ensures Filled(out.m, map[], Join(n, map[]), lim.cap) && WithinCap(|out.m|, lim.cap)
    ensures out.m.Keys == Firsts({}, NamesUnder(names, qr, lim.names), lim.cap)
  {
    ghost var rows := NamesUnder(names, qr, lim.names);
    n := RowMap(rows);
    NamesHold(names, qr, lim.names);
    if qr.wantFn {
      LimitedNamesAre(names, qr, lim.names);
      NameLayer(out, db, h, qr, lim.names, DocsOf(names));
    } else {
      NothingFilled(map[], lim.cap);
      NoRows(Cap(SelectedRecs(names, qr), lim.names), NameItem(qr));
    }
  }

  lemma {:induction false} NamesHold(recs: seq<BuildRec>, qr: Query, limit: Option<nat>)
    requires DistinctPaths(recs)
    ensures var rows, want := NamesUnder(recs, qr, limit), ColdNames(qr, MetasOf(FilesOf(recs)));
            DistinctRows(rows) && Part(RowMap(rows), want) && (limit.None? ==> RowMap(rows) == want)
  {
    if qr.wantFn {
      NameRowsLimited(recs, qr, limit);
    } else {
      NoRows(Cap(SelectedRecs(recs, qr), limit), NameItem(qr));
    }
  }

  lemma {:induction false} NoRows<T(!new)>(items: seq<T>, f: T -> Option<Row>)
    requires forall x :: f(x).None?
    ensures Listing(items, f) == []
  {
    if items != [] { NoRows(items[..|items| - 1], f); }
  }

  method QueryContents(out: Merged, srcs: seq<seq<byte>>, h: nat -> nat, qr: Query, lim: Limits, ghost n: Metas,
      ghost groups: seq<seq<Shard.File>>, ghost recs: seq<BuildRec>)
    returns (ghost c: Metas)
    requires ShardSet(srcs, groups, h, recs) && out.cap == lim.cap
    requires Filled(out.m, map[], Join(n, map[]), lim.cap) && WithinCap(|out.m|, lim.cap)
    modifies out
    ensures Part(c, ColdContents(qr, FilesOf(recs))) && (lim.each.None? ==> c == ColdContents(qr, FilesOf(recs)))
    ensures Filled(out.m, map[], Join(n, c), lim.cap) && WithinCap(|out.m|, lim.cap)
    ensures out.m.Keys == Firsts(old(out.m).Keys, ContentsUnder(groups, qr, lim.each), lim.cap)
  {
    ghost var rows := ContentsUnder(groups, qr, lim.each);
    c := RowMap(rows);
    ContentsHold(srcs, groups, h, recs, qr, lim.each);
    MergeContents(out, srcs, h, qr, lim, n, rows);
  }

  lemma {:induction false} ContentsHold(srcs: seq<seq<byte>>, groups: seq<seq<Shard.File>>, h: nat -> nat,
      recs: seq<BuildRec>, qr: Query, limit: Option<nat>)
    requires ShardSet(srcs, groups, h, recs)
    ensures var rows, want := ContentsUnder(groups, qr, limit), ColdContents(qr, FilesOf(recs));
            && DistinctRows(rows) && Part(RowMap(rows), want) && (limit.None? ==> RowMap(rows) == want)
            && (if qr.wantCt then AllShardRows(srcs, h, qr, limit) == rows else rows == [])
  {
    if qr.wantCt {
      ContentRowsLimited(srcs, groups, h, recs, qr, limit);
    } else {
      NoRows(FirstFiles(groups, qr, limit), FileItem(qr));
    }
  }

  method MergeContents(out: Merged, srcs: seq<seq<byte>>, h: nat -> nat, qr: Query, lim: Limits, ghost n: Metas,
      ghost rows: seq<Row>)
    requires out.cap == lim.cap && DistinctRows(rows)
    requires if qr.wantCt then AllShardRows(srcs, h, qr, lim.each) == rows else rows == []
    requires Filled(out.m, map[], Join(n, map[]), lim.cap) && WithinCap(|out.m|, lim.cap)
    modifies out
    ensures ContentIn(out.m, n, old(out.m).Keys, rows, lim.cap)
  {
    if qr.wantCt {
      var all := QueryShards(srcs, h, qr, lim.each);
      MergeRows(out, all, n);
    }
  }

  // ---------------------------------------------------------------- overlay layer

  /** The rows in scope. */
  function Scoped(rows: seq<Row>, qr: Query): seq<Row> {
    if rows == [] then []
    else
      var front, r := Scoped(rows[..|rows| - 1], qr), rows[|rows| - 1];
      if qr.scope(r.0) then front + [r] else front
  }

  lemma {:induction false} NextScoped(rows: seq<Row>, r: Row, qr: Query)
    ensures Scoped(rows + [r], qr) == if qr.scope(r.0) then Scoped(rows, qr) + [r] else Scoped(rows, qr)
  {
    assert (rows + [r])[..|rows|] == rows;
  }

  lemma {:induction false} ScopedMembers(rows: seq<Row>, qr: Query)
    ensures forall r :: r in Scoped(rows, qr) <==> r in rows && qr.scope(r.0)
  {
    if rows != [] {
      SplitLast(rows);
      ScopedMembers(rows[..|rows| - 1], qr);
    }
  }

  lemma {:induction false} ScopedDistinct(rows: seq<Row>, qr: Query)
    requires DistinctRows(rows)
    ensures DistinctRows(Scoped(rows, qr))
  {
    if rows != [] {
      var n := |rows| - 1;
      var front := Scoped(rows[..n], qr);
      DistinctPrefix(rows, rows[..n]);
      ScopedDistinct(rows[..n], qr);
      ScopedMembers(rows[..n], qr);
      forall r | r in front ensures r.0 != rows[n].0 {
        assert r in rows[..n];
        var j :| 0 <= j < n && rows[j] == r;
      }
      DistinctConcat(front, [rows[n]]);
    }
  }

  /** The overlay's rows of one kind, beside those of the other kind found before. */
  function Beside(n: Metas, rows: Metas, kind: Kind): Matches { if kind.ByName() then Join(rows, n) else Join(n, rows) }

  /** Rows that can come in after `kept`: of other paths, with metadata that `n` has too. */
  ghost predicate Fits(rows: seq<Row>, kept: Matches, n: Metas, kind: Kind) {
    && DistinctRows(rows) && kind != Both && (kind.ByName() ==> n == map[])
    && forall r :: r in rows ==> r.0 !in kept && (r.0 in n ==> n[r.0] == r.1)
  }

  method OverrideRows(out: Merged, rows: seq<Row>, kind: Kind, qr: Query, ghost kept: Matches, ghost n: Metas)
    requires Filled(out.m, kept, Beside(n, map[], kind), out.cap) && WithinCap(|out.m|, out.cap)
    requires Fits(Scoped(rows, qr), kept, n, kind)
    modifies out
    ensures Filled(out.m, kept, Beside(n, RowMap(Scoped(rows, qr)), kind), out.cap) && WithinCap(|out.m|, out.cap)
  {
    for i := 0 to |rows|
      invariant Filled(out.m, kept, Beside(n, RowMap(Scoped(rows[..i], qr)), kind), out.cap)
      invariant WithinCap(|out.m|, out.cap)
    {
      var r := rows[i];
      ScopedStep(rows, i, qr, kept, n, kind);
      if !qr.scope(r.0) { continue; }
      ghost var was := out.m;
      out.OverrideIn(r.0, r.1, kind);
      HotStep(was, out.m, kept, n, Scoped(rows[..i], qr), r, kind, out.cap);
    }
    assert rows[..|rows|] == rows;
  }

  lemma {:induction false} ScopedPrefix(rows: seq<Row>, i: nat, qr: Query)
    requires i <= |rows|
    ensures Scoped(rows[..i], qr) <= Scoped(rows, qr)
  {
    if i == |rows| {
      assert rows[..i] == rows;
    } else {
      assert rows[..|rows| - 1][..i] == rows[..i];
      ScopedPrefix(rows[..|rows| - 1], i, qr);
    }
  }

  lemma {:induction false} ScopedStep(rows: seq<Row>, i: nat, qr: Query, kept: Matches, n: Metas, kind: Kind)
    requires i < |rows| && Fits(Scoped(rows, qr), kept, n, kind)
    ensures var done, r := Scoped(rows[..i], qr), rows[i];
            && Scoped(rows[..i + 1], qr) == (if qr.scope(r.0) then done + [r] else done)
            && (qr.scope(r.0) ==> Fits(done + [r], kept, n, kind))
  {
    assert rows[..i + 1] == rows[..i] + [rows[i]];
    NextScoped(rows[..i], rows[i], qr);
    ScopedPrefix(rows, i + 1, qr);
    DistinctPrefix(Scoped(rows, qr), Scoped(rows[..i + 1], qr));
  }

  lemma {:induction false} HotStep(was: Matches, now: Matches, kept: Matches, n: Metas, rows: seq<Row>, r: Row,
      kind: Kind, cap: Option<nat>)
    requires Filled(was, kept, Beside(n, RowMap(rows), kind), cap) && Fits(rows + [r], kept, n, kind)
    requires Takes(was, now, r.0, r.1, kind, cap)
    ensures Filled(now, kept, Beside(n, RowMap(rows + [r]), kind), cap)
  {
    NextRow(rows, r);
    assert r in rows + [r];
    var done := RowMap(rows);
    if kind.ByName() { ExtendNames(done, n, r.0, r.1); } else { ExtendContents(n, done, r.0, r.1); }
    FillStep(was, now, kept, Beside(n, done, kind), Beside(n, done[r.0 := r.1], kind), r.0, r.1, kind, cap);
  }

  function Retain(m: Matches, v: O.View): Matches { map p | p in m && p !in v :: m[p] }

  lemma {:induction false} RetainKeys(m: Matches, v: O.View)
    ensures Retain(m, v).Keys == m.Keys - v.Keys
  {
  }

  lemma {:induction false} RetainSize(m: Matches, v: O.View, cap: Option<nat>)
    requires WithinCap(|m|, cap)
    ensures WithinCap(|Retain(m, v)|, cap)
  {
    assert |m| == |m.Keys| && |Retain(m, v)| == |Retain(m, v).Keys|;
    SubsetSize(Retain(m, v).Keys, m.Keys);
  }

  function Capped(n: nat, cap: Option<nat>): nat { match cap case None => n case Some(k) => Min(k, n) }

  function InScope(ps: set<Path>, qr: Query): set<Path> { set p | p in ps && qr.scope(p) }

  /** As many of the matches as the limit allows. */
  ghost predicate Taken(hits: set<Path>, matches: set<Path>, limit: Option<nat>) {
    hits <= matches && |hits| == Capped(|matches|, limit)
  }

  /** What one query of the overlay contributes: of the hits it takes those in scope. */
  ghost predicate Gives(some: Metas, want: Metas, matches: set<Path>, limit: Option<nat>, qr: Query) {
    Part(some, want) && exists hits :: Taken(hits, matches, limit) && some.Keys == InScope(hits, qr)
  }

  /** The matches of the overlay, in scope or not. */
  function NamesHeld(qr: Query, v: O.View): set<Path> {
    if qr.wantFn then O.NameMatches(v, qr.q, qr.cs, qr.basename) else {}
  }

  function ContentsHeld(qr: Query, v: O.View): set<Path> {
    if qr.wantCt then O.ContentMatches(v, qr.Needle(), qr.cs) else {}
  }

  lemma {:induction false} HeldInScope(qr: Query, v: O.View)
    ensures InScope(NamesHeld(qr, v), qr) == HotNames(qr, v).Keys
    ensures InScope(ContentsHeld(qr, v), qr) == HotContents(qr, v).Keys
  {
  }

  lemma {:induction false} TakesAll(hits: set<Path>, matches: set<Path>, limit: Option<nat>)
    requires Taken(hits, matches, limit) && !AtCap(|hits|, limit)
    ensures hits == matches
  {
    SubsetSize(hits, matches);
  }

  lemma {:induction false} GivesAll(some: Metas, want: Metas, matches: set<Path>, qr: Query)
    requires Gives(some, want, matches, None, qr) && want.Keys == InScope(matches, qr)
    ensures some == want
  {
    var hits :| Taken(hits, matches, None) && some.Keys == InScope(hits, qr);
    TakesAll(hits, matches, None);
  }

  lemma {:induction false} GivesNothing(want: Metas, limit: Option<nat>, qr: Query)
    ensures Gives(map[], want, {}, limit, qr)
  {
    var none: set<Path>, m: Metas := {}, map[];
    assert Taken(none, {}, limit) && m.Keys == InScope(none, qr);
  }

  /** What the overlay's answer contributes. */
  lemma {:induction false} OverlayRows(hits: seq<Row>, limit: Option<nat>, v: O.View, matches: set<Path>, qr: Query,
      want: Metas)
    requires O.AnswersWith(hits, limit, v, matches)
    requires want == map p | p in matches && p in v && v[p].Live? && qr.scope(p) :: v[p].meta
    ensures DistinctRows(Scoped(hits, qr)) && Gives(RowMap(Scoped(hits, qr)), want, matches, limit, qr)
  {
    var rows := Scoped(hits, qr);
    assert DistinctRows(hits);
    ScopedMembers(hits, qr);
    ScopedDistinct(hits, qr);
    forall r | r in rows ensures r.0 in want && want[r.0] == r.1 {
      var i :| 0 <= i < |hits| && hits[i] == r;
    }
    RowsPart(rows, want);
    var taken := RowMap(hits).Keys;
    assert Taken(taken, matches, limit) by { AllTaken(hits, limit, v, matches); }
    assert RowMap(rows).Keys == InScope(taken, qr) by { ScopedKeys(hits, qr); }
  }

  lemma {:induction false} AllTaken(hits: seq<Row>, limit: Option<nat>, v: O.View, matches: set<Path>)
    requires O.AnswersWith(hits, limit, v, matches)
    ensures Taken(RowMap(hits).Keys, matches, limit)
  {
    RowMapKeys(hits);
    RowMapSize(hits);
    assert |RowMap(hits)| == |RowMap(hits).Keys|;
    forall p | p in RowMap(hits) ensures p in matches { var r :| r in hits && r.0 == p; }
  }

  lemma {:induction false} ScopedKeys(hits: seq<Row>, qr: Query)
    ensures RowMap(Scoped(hits, qr)).Keys == InScope(RowMap(hits).Keys, qr)
  {
    RowMapKeys(hits);
    RowMapKeys(Scoped(hits, qr));
    ScopedMembers(hits, qr);
    forall p | p in InScope(RowMap(hits).Keys, qr) ensures p in RowMap(Scoped(hits, qr)) {
      var r :| r in hits && r.0 == p;
      assert r in Scoped(hits, qr);
    }
  }

  lemma {:induction false} HotNameRows(hits: seq<Row>, limit: Option<nat>, v: O.View, qr: Query)
    requires O.AnswersWith(hits, limit, v, NamesHeld(qr, v)) && qr.wantFn
    ensures DistinctRows(Scoped(hits, qr))
    ensures Gives(RowMap(Scoped(hits, qr)), HotNames(qr, v), NamesHeld(qr, v), limit, qr)
  {
    var matches := NamesHeld(qr, v);
    assert HotNames(qr, v) == map p | p in matches && p in v && v[p].Live? && qr.scope(p) :: v[p].meta;
    OverlayRows(hits, limit, v, matches, qr, HotNames(qr, v));
  }

  lemma {:induction false} HotContentRows(hits: seq<Row>, limit: Option<nat>, v: O.View, qr: Query)
    requires O.AnswersWith(hits, limit, v, ContentsHeld(qr, v)) && qr.wantCt
    ensures DistinctRows(Scoped(hits, qr))
    ensures Gives(RowMap(Scoped(hits, qr)), HotContents(qr, v), ContentsHeld(qr, v), limit, qr)
  {
    var matches := ContentsHeld(qr, v);
    assert HotContents(qr, v) == map p | p in matches && p in v && v[p].Live? && qr.scope(p) :: v[p].meta;
    OverlayRows(hits, limit, v, matches, qr, HotContents(qr, v));
  }

  /** What the overlay layer leaves of what it holds, beside the entries it kept. */
  ghost predicate HotResult(m: Matches, kept: Matches, n: Metas, c: Metas, qr: Query, v: O.View, lim: Limits) {
    && Gives(n, HotNames(qr, v), NamesHeld(qr, v), lim.each, qr)
    && Gives(c, HotContents(qr, v), ContentsHeld(qr, v), lim.each, qr)
    && Filled(m, kept, Join(n, c), lim.cap) && WithinCap(|m|, lim.cap)
  }

  method HotQuery(out: Merged, ov: O.Overlay, qr: Query, lim: Limits) returns (ghost n: Metas, ghost c: Metas)
    requires ov.Valid() && out.cap == lim.cap && WithinCap(|out.m|, lim.cap)
    modifies out
    ensures var kept, v := Retain(old(out.m), ov.View()), ov.View();
            HotResult(out.m, kept, n, c, qr, v, lim)
  {
    ghost var v := ov.View();
    RetainSize(out.m, v, lim.cap);
    DropShadowed(out, ov);
    ghost var kept := out.m;
    NothingFilled(kept, lim.cap);
    n := OverrideNames(out, ov, qr, lim, kept, v);
    c := OverrideContents(out, ov, qr, lim, kept, n, v);
  }

  method DropShadowed(out: Merged, ov: O.Overlay)
    requires ov.Valid()
    modifies out
    ensures out.m == Retain(old(out.m), ov.View())
  {
    if ov.ShadowsAnything() {
      out.m := map p | p in out.m && !ov.Suppresses(p) :: out.m[p];
    }
  }

  method OverrideNames(out: Merged, ov: O.Overlay, qr: Query, lim: Limits, ghost kept: Matches, ghost v: O.View)
    returns (ghost n: Metas)
    requires ov.Valid() && v == ov.View() && out.cap == lim.cap && WithinCap(|out.m|, lim.cap)
    requires Filled(out.m, kept, Join(map[], map[]), lim.cap) && kept.Keys !! v.Keys
    modifies out
    ensures Gives(n, HotNames(qr, v), NamesHeld(qr, v), lim.each, qr)
    ensures Filled(out.m, kept, Join(n, map[]), lim.cap) && WithinCap(|out.m|, lim.cap)
  {
    n := map[];
    GivesNothing(HotNames(qr, v), lim.each, qr);
    if qr.wantFn {
      var hits := ov.FilenameQuery(qr.q, qr.cs, qr.basename, lim.each);
      HotNameRows(hits, lim.each, v, qr);
      n := RowMap(Scoped(hits, qr));
      HotFits(Scoped(hits, qr), kept, map[], Filename, HotNames(qr, v), v);
      OverrideRows(out, hits, Filename, qr, kept, map[]);
    }
  }

  method OverrideContents(out: Merged, ov: O.Overlay, qr: Query, lim: Limits, ghost kept: Matches, ghost n: Metas,
      ghost v: O.View)
    returns (ghost c: Metas)
    requires ov.Valid() && v == ov.View() && out.cap == lim.cap && WithinCap(|out.m|, lim.cap)
    requires Filled(out.m, kept, Join(n, map[]), lim.cap) && kept.Keys !! v.Keys && Part(n, HotNames(qr, v))
    modifies out
    ensures Gives(c, HotContents(qr, v), ContentsHeld(qr, v), lim.each, qr)
    ensures Filled(out.m, kept, Join(n, c), lim.cap) && WithinCap(|out.m|, lim.cap)
  {
    c := map[];
    GivesNothing(HotContents(qr, v), lim.each, qr);
    if qr.wantCt {
      var hits := ov.ContentQuery(Fold(qr.q), qr.q, qr.cs, lim.each);
      HotContentRows(hits, lim.each, v, qr);
      c := RowMap(Scoped(hits, qr));
      HotFits(Scoped(hits, qr), kept, n, Content, HotContents(qr, v), v);
      OverrideRows(out, hits, Content, qr, kept, n);
    }
  }

  lemma {:induction false} HotFits(rows: seq<Row>, kept: Matches, n: Metas, kind: Kind, want: Metas, v: O.View)
    requires DistinctRows(rows) && Part(RowMap(rows), want) && kind != Both && (kind.ByName() ==> n == map[])
    requires kept.Keys !! v.Keys
    requires forall p :: p in want ==> p in v && v[p].Live? && want[p] == v[p].meta
    requires forall p :: p in n ==> p in v && v[p].Live? && n[p] == v[p].meta
    ensures Fits(rows, kept, n, kind)
  {
    RowMapEntries(rows);
  }

  // ---------------------------------------------------------------- what a limit loses

  /** The unshadowed paths among those that the limits leave of the cold hits. */
  function KeptPaths(qr: Query, names: seq<BuildRec>, groups: seq<seq<Shard.File>>, v: O.View, lim: Limits): set<Path> {
    set p | p in Firsts({}, ColdUnder(qr, names, groups, lim), lim.cap) && p !in v
  }

  /** All unshadowed paths that the cold layers find. */
  function ColdPaths(qr: Query, names: Metas, files: Files, v: O.View): set<Path> {
    set p | p in ColdNames(qr, names).Keys + ColdContents(qr, files).Keys && p !in v
  }

  /** The paths that the overlay finds. */
  function HotPaths(qr: Query, v: O.View): set<Path> {
    set p | p in v && v[p].Live? && (qr.NameHit(p) || qr.ContentHit(p, v[p].content))
  }

  /** What the overlay gives under a limit: as many of its matches of each kind as the limit
      allows, and of these the ones in scope. */
  ghost predicate HotTaken(hot: set<Path>, qr: Query, v: O.View, limit: Option<nat>) {
    exists a, b ::
      Taken(a, NamesHeld(qr, v), limit) && Taken(b, ContentsHeld(qr, v), limit) && hot == InScope(a + b, qr)
  }

  /** The limits lose nothing: the paths left fill the cap, or none was dropped. */
  predicate Fills(qr: Query, names: seq<BuildRec>, groups: seq<seq<Shard.File>>, recs: seq<BuildRec>, v: O.View,
      lim: Limits, hot: set<Path>) {
    var kept := KeptPaths(qr, names, groups, v, lim);
    || AtCap(|kept| + |hot|, lim.cap)
    || (kept == ColdPaths(qr, MetasOf(FilesOf(names)), FilesOf(recs), v) && hot == HotPaths(qr, v))
  }

  lemma {:induction false} ScopeWithin(a: set<Path>, b: set<Path>, qr: Query)
    requires a <= b
    ensures InScope(a, qr) <= InScope(b, qr)
  {
  }

  lemma {:induction false} ScopeBoth(a: set<Path>, b: set<Path>, qr: Query)
    ensures InScope(a + b, qr) == InScope(a, qr) + InScope(b, qr)
  {
  }

  lemma {:induction false} HeldPaths(qr: Query, v: O.View)
    ensures InScope(NamesHeld(qr, v) + ContentsHeld(qr, v), qr) == HotPaths(qr, v)
  {
    ScopeBoth(NamesHeld(qr, v), ContentsHeld(qr, v), qr);
    HeldInScope(qr, v);
    PathsAre(qr, map[], map[], v);
  }

  lemma {:induction false} HotWithin(hot: set<Path>, qr: Query, v: O.View, limit: Option<nat>)
    requires HotTaken(hot, qr, v, limit)
    ensures hot <= HotPaths(qr, v)
  {
    var names, contents := NamesHeld(qr, v), ContentsHeld(qr, v);
    var a, b :| Taken(a, names, limit) && Taken(b, contents, limit) && hot == InScope(a + b, qr);
    HeldPaths(qr, v);
    assert a + b <= names + contents;
    ScopeWithin(a + b, names + contents, qr);
  }

  /** The overlay is not limited, or as the result is and without a scope. */
  ghost predicate HotWhole(qr: Query, lim: Limits) { lim.each.None? || (lim.each == lim.cap && qr.Unscoped()) }

  lemma {:induction false} TakenFills(a: set<Path>, b: set<Path>, names: set<Path>, contents: set<Path>,
      limit: Option<nat>)
    requires Taken(a, names, limit) && Taken(b, contents, limit)
    ensures a + b == names + contents || AtCap(|a + b|, limit)
  {
    if AtCap(|a|, limit) || AtCap(|b|, limit) {
      SubsetSize(a, a + b);
      SubsetSize(b, a + b);
    } else {
      TakesAll(a, names, limit);
      TakesAll(b, contents, limit);
    }
  }

  lemma {:induction false} ScopeAll(ps: set<Path>, qr: Query)
    requires qr.Unscoped()
    ensures InScope(ps, qr) == ps
  {
  }

  /** Then it gives up no hit that the result has room for. */
  lemma {:induction false} HotFills(hot: set<Path>, qr: Query, v: O.View, lim: Limits)
    requires HotTaken(hot, qr, v, lim.each) && HotWhole(qr, lim)
    ensures hot == HotPaths(qr, v) || AtCap(|hot|, lim.cap)
  {
    var names, contents := NamesHeld(qr, v), ContentsHeld(qr, v);
    var a, b :| Taken(a, names, lim.each) && Taken(b, contents, lim.each) && hot == InScope(a + b, qr);
    TakenFills(a, b, names, contents, lim.each);
    if a + b == names + contents { HeldPaths(qr, v); } else { ScopeAll(a + b, qr); }
  }

  lemma {:induction false} PathsAre(qr: Query, names: Metas, files: Files, v: O.View)
    ensures ColdPaths(qr, names, files, v)
         == Unshadowed(ColdNames(qr, names), v).Keys + Unshadowed(ColdContents(qr, files), v).Keys
    ensures HotPaths(qr, v) == HotNames(qr, v).Keys + HotContents(qr, v).Keys
  {
  }

  lemma {:induction false} KeptIs(qr: Query, names: seq<BuildRec>, groups: seq<seq<Shard.File>>, v: O.View, lim: Limits,
      some: set<Path>)
    requires some == Firsts({}, ColdUnder(qr, names, groups, lim), lim.cap)
    ensures KeptPaths(qr, names, groups, v, lim) == some - v.Keys
  {
  }

  lemma {:induction false} ScanKeys(qr: Query, names: Metas, files: Files, v: O.View)
    ensures LayerScan(qr, names, files, v).Keys == ColdPaths(qr, names, files, v) + HotPaths(qr, v)
    ensures ColdPaths(qr, names, files, v) !! v.Keys && HotPaths(qr, v) <= v.Keys
  {
  }

  lemma {:induction false} ScanSize(qr: Query, names: Metas, files: Files, v: O.View)
    ensures |LayerScan(qr, names, files, v)| == |ColdPaths(qr, names, files, v)| + |HotPaths(qr, v)|
  {
    ScanKeys(qr, names, files, v);
    JoinedSize(LayerScan(qr, names, files, v), ColdPaths(qr, names, files, v), HotPaths(qr, v));
  }

  lemma {:induction false} JoinedSize(m: Matches, a: set<Path>, b: set<Path>)
    requires m.Keys == a + b && a !! b
    ensures |m| == |a| + |b|
  {
    assert |m| == |m.Keys|;
  }

  lemma {:induction false} FirstColdPaths(qr: Query, names: seq<BuildRec>, recs: seq<BuildRec>, cap: Option<nat>)
    requires DistinctPaths(names) && DistinctPaths(recs)
    ensures var all := ColdNames(qr, MetasOf(FilesOf(names))).Keys + ColdContents(qr, FilesOf(recs)).Keys;
            var some := Firsts({}, ColdRows(qr, names, recs), cap);
            some <= all && (AtCap(|some|, cap) || some == all)
  {
    var n, c := ColdNames(qr, MetasOf(FilesOf(names))), ColdContents(qr, FilesOf(recs));
    var rows := ColdRows(qr, names, recs);
    NamesListed(names, qr);
    ContentsListed(recs, qr);
    FirstsExact({}, rows, cap);
    var some := Firsts({}, rows, cap);
    forall p | p in some ensures p in n.Keys + c.Keys {
      var r :| r in rows && r.0 == p;
      assert r in NameRows(names, qr) || r in ContentRows(recs, qr);
    }
    if !AtCap(|some|, cap) {
      forall p | p in n ensures p in some { var r :| r in NameRows(names, qr) && r.0 == p; assert r in rows; }
      forall p | p in c ensures p in some { var r :| r in ContentRows(recs, qr) && r.0 == p; assert r in rows; }
    }
  }

  /** The limits drop paths and add none. */
  lemma {:induction false} KeptAreCold(qr: Query, names: seq<BuildRec>, groups: seq<seq<Shard.File>>,
      recs: seq<BuildRec>, v: O.View, lim: Limits)
    requires DistinctPaths(names) && DistinctPaths(recs) && Concat(groups) == ContentFiles(recs)
    ensures KeptPaths(qr, names, groups, v, lim) <= ColdPaths(qr, MetasOf(FilesOf(names)), FilesOf(recs), v)
  {
    var n, c := ColdNames(qr, MetasOf(FilesOf(names))), ColdContents(qr, FilesOf(recs));
    UnderWithin(names, groups, qr, lim.names, lim.each);
    ContentFileRows(recs, qr);
    NamesListed(names, qr);
    ContentsListed(recs, qr);
    var rows := ColdUnder(qr, names, groups, lim);
    FirstsExact({}, rows, lim.cap);
    forall p | p in KeptPaths(qr, names, groups, v, lim) ensures p in n.Keys + c.Keys {
      var r :| r in rows && r.0 == p;
      assert r in NameRows(names, qr) || r in ContentRows(recs, qr);
    }
  }

  /** The result of a limited query is as long as the limited scan if and only if the
      limits lose nothing. */
  lemma {:induction false} LimitExact(qr: Query, names: seq<BuildRec>, groups: seq<seq<Shard.File>>,
      recs: seq<BuildRec>, v: O.View, lim: Limits, hot: set<Path>, scan: Matches)
    requires DistinctPaths(names) && DistinctPaths(recs) && Concat(groups) == ContentFiles(recs)
    requires scan == LayerScan(qr, MetasOf(FilesOf(names)), FilesOf(recs), v) && HotTaken(hot, qr, v, lim.each)
    ensures var n := Capped(|KeptPaths(qr, names, groups, v, lim)| + |hot|, lim.cap);
            var whole := Fills(qr, names, groups, recs, v, lim, hot);
            whole <==> n == Capped(|scan|, lim.cap)
  {
    KeptAreCold(qr, names, groups, recs, v, lim);
    HotWithin(hot, qr, v, lim.each);
    ScanSize(qr, MetasOf(FilesOf(names)), FilesOf(recs), v);
    LimitCounts(qr, names, groups, recs, v, lim, hot, |scan|);
  }

  lemma {:induction false} LimitCounts(qr: Query, names: seq<BuildRec>, groups: seq<seq<Shard.File>>,
      recs: seq<BuildRec>, v: O.View, lim: Limits, hot: set<Path>, total: nat)
    requires var cold := ColdPaths(qr, MetasOf(FilesOf(names)), FilesOf(recs), v);
             && KeptPaths(qr, names, groups, v, lim) <= cold && hot <= HotPaths(qr, v)
             && total == |cold| + |HotPaths(qr, v)|
    ensures var n := Capped(|KeptPaths(qr, names, groups, v, lim)| + |hot|, lim.cap);
            var whole := Fills(qr, names, groups, recs, v, lim, hot);
            whole <==> n == Capped(total, lim.cap)
  {
    CountIff(KeptPaths(qr, names, groups, v, lim), ColdPaths(qr, MetasOf(FilesOf(names)), FilesOf(recs), v),
             hot, HotPaths(qr, v), lim.cap);
  }

  lemma {:induction false} CountIff(kept: set<Path>, cold: set<Path>, hot: set<Path>, all: set<Path>, cap: Option<nat>)
    requires kept <= cold && hot <= all
    ensures AtCap(|kept| + |hot|, cap) || (kept == cold && hot == all)
       <==> Capped(|kept| + |hot|, cap) == Capped(|cold| + |all|, cap)
  {
    SubsetSize(kept, cold);
    SubsetSize(hot, all);
  }

  /** Every layer is cut, if at all, where the result is, and what it gives is not looked through
      again for the scope or the last component. */
  ghost predicate Fair(qr: Query, lim: Limits) {
    && (qr.wantFn ==> lim.names.None? || (lim.names == lim.cap && qr.Whole()))
    && (qr.wantCt ==> lim.each.None? || (lim.each == lim.cap && qr.Unscoped()))
  }

  /** Then a limit takes the first of all cold hits. */
  lemma {:induction false} FairFirsts(srcs: seq<seq<byte>>, groups: seq<seq<Shard.File>>, h: nat -> nat, qr: Query,
      names: seq<BuildRec>, recs: seq<BuildRec>, lim: Limits)
    requires DistinctPaths(names) && ShardSet(srcs, groups, h, recs) && Fair(qr, lim)
    ensures Firsts({}, ColdUnder(qr, names, groups, lim), lim.cap) == Firsts({}, ColdRows(qr, names, recs), lim.cap)
  {
    var n, c := NamesUnder(names, qr, lim.names), ContentsUnder(groups, qr, lim.each);
    FirstsConcat({}, n, c, lim.cap);
    FirstsConcat({}, NameRows(names, qr), ContentRows(recs, qr), lim.cap);
    if qr.wantFn {
      NameRowsLimited(names, qr, lim.names);
    } else {
      NoRows(Cap(SelectedRecs(names, qr), lim.names), NameItem(qr));
      NoRows(names, NameItem(qr));
    }
    FairContents(srcs, groups, h, qr, recs, lim, Firsts({}, NameRows(names, qr), lim.cap));
  }

  lemma {:induction false} FairContents(srcs: seq<seq<byte>>, groups: seq<seq<Shard.File>>, h: nat -> nat, qr: Query,
      recs: seq<BuildRec>, lim: Limits, s: set<Path>)
    requires ShardSet(srcs, groups, h, recs) && Fair(qr, lim)
    ensures Firsts(s, ContentsUnder(groups, qr, lim.each), lim.cap) == Firsts(s, ContentRows(recs, qr), lim.cap)
  {
    if qr.wantCt {
      ContentRowsLimited(srcs, groups, h, recs, qr, lim.each);
      ContentFileRows(recs, qr);
      ContentsListed(recs, qr);
      if lim.each.Some? { AllShardFirsts(srcs, groups, h, qr, lim.cap.value, s); }
    } else {
      NoRows(FirstFiles(groups, qr, lim.each), FileItem(qr));
      NoRows(recs, ContentItem(qr));
    }
  }

  /** So when the overlay shadows none of these, nothing is lost. */
  lemma {:induction false} UnshadowedFills(srcs: seq<seq<byte>>, groups: seq<seq<Shard.File>>, h: nat -> nat, qr: Query,
      names: seq<BuildRec>, recs: seq<BuildRec>, v: O.View, lim: Limits, hot: set<Path>)
    requires DistinctPaths(names) && ShardSet(srcs, groups, h, recs) && Fair(qr, lim)
    requires HotTaken(hot, qr, v, lim.each) && HotWhole(qr, lim)
    requires Firsts({}, ColdRows(qr, names, recs), lim.cap) !! v.Keys
    ensures Fills(qr, names, groups, recs, v, lim, hot)
  {
    var kept := KeptPaths(qr, names, groups, v, lim);
    KeptFills(srcs, groups, h, qr, names, recs, v, lim);
    HotFills(hot, qr, v, lim);
    assert AtCap(|kept|, lim.cap) || AtCap(|hot|, lim.cap) ==> AtCap(|kept| + |hot|, lim.cap);
  }

  lemma {:induction false} KeptFills(srcs: seq<seq<byte>>, groups: seq<seq<Shard.File>>, h: nat -> nat, qr: Query,
      names: seq<BuildRec>, recs: seq<BuildRec>, v: O.View, lim: Limits)
    requires DistinctPaths(names) && ShardSet(srcs, groups, h, recs) && Fair(qr, lim)
    requires Firsts({}, ColdRows(qr, names, recs), lim.cap) !! v.Keys
    ensures var kept := KeptPaths(qr, names, groups, v, lim);
            AtCap(|kept|, lim.cap) || kept == ColdPaths(qr, MetasOf(FilesOf(names)), FilesOf(recs), v)
  {
    var some := Firsts({}, ColdRows(qr, names, recs), lim.cap);
    var n, c := ColdNames(qr, MetasOf(FilesOf(names))), ColdContents(qr, FilesOf(recs));
    var kept, cold := KeptPaths(qr, names, groups, v, lim), ColdPaths(qr, MetasOf(FilesOf(names)), FilesOf(recs), v);
    assert kept == some by {
      FairFirsts(srcs, groups, h, qr, names, recs, lim);
      KeptIs(qr, names, groups, v, lim, some);
    }
    assert AtCap(|some|, lim.cap) || some == cold by {
      FirstColdPaths(qr, names, recs, lim.cap);
      NoneShadowed(some, n, c, v, lim.cap);
      PathsAre(qr, MetasOf(FilesOf(names)), FilesOf(recs), v);
    }
  }

  lemma {:induction false} NoneShadowed(some: set<Path>, n: Metas, c: Metas, v: O.View, cap: Option<nat>)
    requires some !! v.Keys && some <= n.Keys + c.Keys && (AtCap(|some|, cap) || some == n.Keys + c.Keys)
    ensures some - v.Keys == some
    ensures AtCap(|some|, cap) || some == Unshadowed(n, v).Keys + Unshadowed(c, v).Keys
  {
    if some == n.Keys + c.Keys { StillThere(n, c, v); }
  }

  lemma {:induction false} StillThere(n: Metas, c: Metas, v: O.View)
    requires (n.Keys + c.Keys) !! v.Keys
    ensures Unshadowed(n, v).Keys + Unshadowed(c, v).Keys == n.Keys + c.Keys
  {
    assert Unshadowed(n, v).Keys == n.Keys by { forall p | p in n ensures p !in v { assert p in n.Keys + c.Keys; } }
    assert Unshadowed(c, v).Keys == c.Keys by { forall p | p in c ensures p !in v { assert p in n.Keys + c.Keys; } }
  }

  /** A scope uses up the limit of a query by content: of two matching files in one shard, the
      first out of scope, a limit of one finds nothing. */
  lemma {:induction false} ScopeUsesLimit(a: Shard.File, b: Shard.File, qr: Query)
    requires !qr.wantFn && qr.wantCt && !qr.scope(a.path) && qr.scope(b.path)
    requires O.Holds(Some(a.content), qr.Needle(), qr.cs) && O.Holds(Some(b.content), qr.Needle(), qr.cs)
    ensures KeptPaths(qr, [], [[a, b]], map[], LimitsOf(Some(1), true, false)) == {}
    ensures qr.ContentHit(b.path, Some(b.content))
  {
    var groups := [[a, b]];
    assert groups[..0] == [] && groups[0] == [a, b] && [a, b][..1] == [a] && [a][..0] == [];
    assert MatchingFiles([a], qr) == [a] && MatchingFiles([a, b], qr) == [a, b];
    assert FirstFiles(groups, qr, Some(1)) == [a];
    assert FileItem(qr)(a) == None && Listing([a], FileItem(qr)) == [];
    assert SelectedRecs([], qr) == [];
  }

  /** A changed file does too: of two matching files, the first deleted since, a limit of one
      finds nothing. */
  lemma {:induction false} LimitLosesHits(recs: seq<BuildRec>, groups: seq<seq<Shard.File>>, qr: Query)
    requires |recs| == 2 && DistinctPaths(recs) && qr.ColdNameHit(recs[0].path) && qr.ColdNameHit(recs[1].path)
    ensures var v, lim := map[recs[0].path := O.Deleted], LimitsOf(Some(1), false, false);
            && KeptPaths(qr, recs, groups, v, lim) == {} && HotPaths(qr, v) == {}
            && !Fills(qr, recs, groups, recs, v, lim, {})
            && recs[1].path in LayerScan(qr, MetasOf(FilesOf(recs)), FilesOf(recs), v)
  {
    var v, lim := map[recs[0].path := O.Deleted], LimitsOf(Some(1), false, false);
    var files := FilesOf(recs);
    FirstOfTwo(recs, qr);
    FirstOnly(RowOfRec(recs[0]), ContentsUnder(groups, qr, lim.each));
    SecondFound(recs, qr, v);
    ScanKeys(qr, MetasOf(files), files, v);
    assert KeptPaths(qr, recs, groups, v, lim) == {} by { KeptIs(qr, recs, groups, v, lim, {recs[0].path}); }
    OnlyDeleted(qr, recs[0].path);
  }

  lemma {:induction false} FirstOfTwo(recs: seq<BuildRec>, qr: Query)
    requires |recs| == 2 && qr.ColdNameHit(recs[0].path) && qr.ColdNameHit(recs[1].path)
    ensures NamesUnder(recs, qr, Some(1)) == [RowOfRec(recs[0])]
  {
    assert recs[..1] == [recs[0]] && [recs[0]][..0] == [];
    assert SelectedRecs([recs[0]], qr) == [recs[0]] && SelectedRecs(recs, qr) == [recs[0], recs[1]];
    assert Cap(SelectedRecs(recs, qr), Some(1)) == [recs[0]];
    assert Listing([recs[0]], NameItem(qr)) == [] + [RowOfRec(recs[0])];
  }

  lemma {:induction false} OnlyDeleted(qr: Query, p: Path)
    ensures HotPaths(qr, map[p := O.Deleted]) == {}
  {
  }

  lemma {:induction false} SecondFound(recs: seq<BuildRec>, qr: Query, v: O.View)
    requires |recs| == 2 && DistinctPaths(recs) && qr.ColdNameHit(recs[1].path) && recs[1].path !in v
    ensures recs[1].path in ColdPaths(qr, MetasOf(FilesOf(recs)), FilesOf(recs), v)
  {
    FilesAt(recs, 1);
  }

  lemma {:induction false} FirstOnly(a: Row, rest: seq<Row>)
    ensures Firsts({}, [a] + rest, Some(1)) == {a.0}
  {
    NextFirst({}, [], a, Some(1));
    assert [] + [a] == [a] && Firsts({}, [a], Some(1)) == {a.0};
    FirstsConcat({}, [a], rest, Some(1));
    FirstsFull({a.0}, rest, Some(1));
  }

  // ---------------------------------------------------------------- the query

  /** What is left of the cold layers beside the overlay, as one. */
  lemma {:induction false} LayersJoin(kept: Matches, cold: Matches, n: Metas, c: Metas, on: Metas, oc: Metas, v: O.View)
    requires kept == Retain(cold, v) && on.Keys <= v.Keys && oc.Keys <= v.Keys
    requires forall p :: p in cold ==> Entry(map[], Join(n, c), p, cold[p])
    ensures var all := Join(Unshadowed(n, v) + on, Unshadowed(c, v) + oc);
            && (forall p :: p in kept ==> p in all && all[p] == kept[p])
            && (forall p :: p in Join(on, oc) ==> p in all && all[p] == Join(on, oc)[p])
            && (cold == Join(n, c) ==> kept + Join(on, oc) == all)
  {
    var left, more := Join(Unshadowed(n, v), Unshadowed(c, v)), Join(on, oc);
    JoinSplit(Unshadowed(n, v), on, Unshadowed(c, v), oc);
    RetainJoin(n, c, v);
    forall p | p in kept ensures p in left && kept[p] == left[p] {
      assert Entry(map[], Join(n, c), p, cold[p]) && p in Retain(Join(n, c), v);
    }
    assert left.Keys !! more.Keys;
  }

  lemma {:induction false} RetainJoin(n: Metas, c: Metas, v: O.View)
    ensures Retain(Join(n, c), v) == Join(Unshadowed(n, v), Unshadowed(c, v))
  {
  }

  /** `m` holds part of what the scan finds: with the metadata of the scan, and of no
      layer that the scan does not name. */
  ghost predicate Within(m: Matches, scan: Matches) {
    forall p :: p in m ==>
      && p in scan && m[p].0 == scan[p].0
      && (m[p].1.ByName() ==> scan[p].1.ByName()) && (m[p].1.ByContent() ==> scan[p].1.ByContent())
  }

  /** Whatever the limits, a query finds nothing that a scan does not. */
  lemma {:induction false} GroundedWithin(m: Matches, qr: Query, names: Metas, files: Files, v: O.View)
    requires Grounded(m, AllNames(qr, names, v), AllContents(qr, files, v)) && Agree(names, files, v)
    ensures Within(m, LayerScan(qr, names, files, v))
  {
    var n, c := AllNames(qr, names, v), AllContents(qr, files, v);
    forall p | p in n && p in c ensures n[p] == c[p] { assert AgreeAt(names, files, v, p); }
    GroundedJoin(m, n, c);
  }

  lemma {:induction false} GroundedJoin(m: Matches, n: Metas, c: Metas)
    requires Grounded(m, n, c) && forall p :: p in n && p in c ==> n[p] == c[p]
    ensures Within(m, Join(n, c))
  {
  }

  /** Both stages together, under any limits: `cn` and `cc` are what the cold layers
      hold, `hn` and `hc` what the overlay does. */
  lemma {:induction false} StagesGrounded(result: Matches, cold: Matches, n: Metas, c: Metas, on: Metas, oc: Metas,
      cn: Metas, cc: Metas, hn: Metas, hc: Metas, rows: seq<Row>, v: O.View, lim: Limits)
    requires ColdResult(cold, n, c, cn, cc, rows, lim)
    requires Part(on, hn) && Part(oc, hc) && (lim.each.None? ==> on == hn && oc == hc)
    requires Filled(result, Retain(cold, v), Join(on, oc), lim.cap)
    requires hn.Keys <= v.Keys && hc.Keys <= v.Keys
    ensures Grounded(result, Unshadowed(cn, v) + hn, Unshadowed(cc, v) + hc)
    ensures lim == NO_LIMITS ==> result == Join(Unshadowed(cn, v) + hn, Unshadowed(cc, v) + hc)
  {
    var kept, more := Retain(cold, v), Join(on, oc);
    LayersJoin(kept, cold, n, c, on, oc, v);
    var all := Join(Unshadowed(n, v) + on, Unshadowed(c, v) + oc);
    ResultInJoin(result, kept, more, all, lim.cap);
    PartUnshadowed(n, cn, on, hn, v);
    PartUnshadowed(c, cc, oc, hc, v);
    PartGrounded(result, Unshadowed(n, v) + on, Unshadowed(c, v) + oc, Unshadowed(cn, v) + hn, Unshadowed(cc, v) + hc);
    if lim == NO_LIMITS {
      FilledAlone(cold, Join(n, c));
      FilledWhole(result, kept, more);
    }
  }

  lemma {:induction false} ResultInJoin(m: Matches, kept: Matches, more: Matches, all: Matches, cap: Option<nat>)
    requires Filled(m, kept, more, cap)
    requires forall p :: p in kept ==> p in all && all[p] == kept[p]
    requires forall p :: p in more ==> p in all && all[p] == more[p]
    ensures forall p :: p in m ==> p in all && m[p] == all[p]
  {
    forall p | p in m ensures p in all && m[p] == all[p] { assert Entry(kept, more, p, m[p]); }
  }

  lemma {:induction false} PartUnshadowed(a: Metas, cold: Metas, b: Metas, hot: Metas, v: O.View)
    requires Part(a, cold) && Part(b, hot) && hot.Keys <= v.Keys
    ensures Part(Unshadowed(a, v) + b, Unshadowed(cold, v) + hot)
  {
  }

  /** A limited query: the paths kept of the cold hits, and of the ones that the overlay gives as
      many as still fit. */
  ghost predicate LimitedAnswer(result: Matches, kept: set<Path>, hot: set<Path>, cap: Option<nat>) {
    kept <= result.Keys <= kept + hot && |result| == Capped(|kept| + |hot|, cap)
  }

  lemma {:induction false} StagesLimited(result: Matches, kept: Matches, n: Metas, c: Metas, cap: Option<nat>)
    requires Filled(result, kept, Join(n, c), cap) && WithinCap(|result|, cap)
    ensures LimitedAnswer(result, kept.Keys, n.Keys + c.Keys, cap)
  {
    var more := Join(n, c);
    assert more.Keys == n.Keys + c.Keys;
    FilledSizes(result, kept, more, cap);
  }

  lemma {:induction false} FilledSizes(m: Matches, kept: Matches, more: Matches, cap: Option<nat>)
    requires Filled(m, kept, more, cap) && WithinCap(|m|, cap)
    ensures kept.Keys <= m.Keys <= kept.Keys + more.Keys && |m| == Capped(|kept.Keys| + |more.Keys|, cap)
  {
    assert |kept| == |kept.Keys| && |more| == |more.Keys|;
    match cap
    case None =>
      FilledWhole(m, kept, more);
      assert m.Keys == kept.Keys + more.Keys && |m| == |m.Keys|;
    case Some(k) => FilledSize(m, kept, more, k);
  }

  lemma {:induction false} BothTaken(n: Metas, c: Metas, qr: Query, v: O.View, limit: Option<nat>)
    requires Gives(n, HotNames(qr, v), NamesHeld(qr, v), limit, qr)
    requires Gives(c, HotContents(qr, v), ContentsHeld(qr, v), limit, qr)
    ensures HotTaken(n.Keys + c.Keys, qr, v, limit)
  {
    var names, contents := NamesHeld(qr, v), ContentsHeld(qr, v);
    var a :| Taken(a, names, limit) && n.Keys == InScope(a, qr);
    var b :| Taken(b, contents, limit) && c.Keys == InScope(b, qr);
    ScopeBoth(a, b, qr);
    assert n.Keys + c.Keys == InScope(a + b, qr);
  }

  lemma {:induction false} BothWhole(n: Metas, c: Metas, qr: Query, v: O.View)
    requires Gives(n, HotNames(qr, v), NamesHeld(qr, v), None, qr)
    requires Gives(c, HotContents(qr, v), ContentsHeld(qr, v), None, qr)
    ensures n == HotNames(qr, v) && c == HotContents(qr, v)
  {
    HeldInScope(qr, v);
    GivesAll(n, HotNames(qr, v), NamesHeld(qr, v), qr);
    GivesAll(c, HotContents(qr, v), ContentsHeld(qr, v), qr);
  }

  /** One query.  Without limits it returns what the layers hold, which for a plain query
      is the scan of the files; under limits a part of that, no more than the cap, with all
      cold hits that the limits leave, and of the overlay's `hot` as many as fit. */
  method QueryOne(db: FileDb.DbReader, srcs: seq<seq<byte>>, ov: O.Overlay, h: nat -> nat, qr: Query, lim: Limits,
      ghost names: seq<BuildRec>, ghost groups: seq<seq<Shard.File>>, ghost recs: seq<BuildRec>)
    returns (result: Matches, ghost hot: set<Path>)
    requires NameDb(db, h, names) && ShardSet(srcs, groups, h, recs) && ov.Valid()
    modifies db
    ensures WithinCap(|result|, lim.cap)
    ensures var nn, cc := AllNames(qr, MetasOf(FilesOf(names)), ov.View()), AllContents(qr, FilesOf(recs), ov.View());
            Grounded(result, nn, cc)
    ensures lim == NO_LIMITS ==> result == LayerScan(qr, MetasOf(FilesOf(names)), FilesOf(recs), ov.View())
    ensures LimitedAnswer(result, KeptPaths(qr, names, groups, ov.View(), lim), hot, lim.cap)
    ensures HotTaken(hot, qr, ov.View(), lim.each)
  {
    ghost var v := ov.View();
    ghost var cn, cc := ColdNames(qr, MetasOf(FilesOf(names))), ColdContents(qr, FilesOf(recs));
    var merged := new Merged(lim.cap);
    ghost var n, c := ColdQuery(merged, db, srcs, h, qr, lim, names, groups, recs);
    ghost var cold := merged.m;
    ghost var on, oc := HotQuery(merged, ov, qr, lim);
    result := merged.m;
    hot := on.Keys + oc.Keys;
    ghost var rows := ColdUnder(qr, names, groups, lim);
    BothTaken(on, oc, qr, v, lim.each);
    if lim.each.None? { BothWhole(on, oc, qr, v); }
    StagesGrounded(result, cold, n, c, on, oc, cn, cc, HotNames(qr, v), HotContents(qr, v), rows, v, lim);
    ghost var kept := Retain(cold, v);
    assert kept.Keys == KeptPaths(qr, names, groups, v, lim) by {
      RetainKeys(cold, v);
      KeptIs(qr, names, groups, v, lim, cold.Keys);
    }
    StagesLimited(result, kept, on, oc, lim.cap);
  }

  /** A plain query over the layers of one build, and the scan it must agree with. */
  method QueryBuilt(db: FileDb.DbReader, srcs: seq<seq<byte>>, ov: O.Overlay, h: nat -> nat, qr: Query, lim: Limits,
      ghost groups: seq<seq<Shard.File>>, ghost recs: seq<BuildRec>)
    returns (result: Matches, ghost hot: set<Path>)
    requires NameDb(db, h, recs) && ShardSet(srcs, groups, h, recs) && ov.Valid() && qr.Plain()
    modifies db
    ensures BuiltAnswer(result, qr, groups, recs, ov.View(), lim, hot)
  {
    result, hot := QueryOne(db, srcs, ov, h, qr, lim, recs, groups, recs);
    LayersAnswer(result, qr, groups, recs, ov.View(), lim, hot);
  }

  /** Without limits the scan of the files; under limits a part of it, and as many as the cap
      allows if and only if the limits lose nothing. */
  ghost predicate BuiltAnswer(result: Matches, qr: Query, groups: seq<seq<Shard.File>>, recs: seq<BuildRec>,
      v: O.View, lim: Limits, hot: set<Path>) {
    var scan := ScanFiles(qr, Updated(FilesOf(recs), v));
    && Within(result, scan) && (lim == NO_LIMITS ==> result == scan)
    && LimitedAnswer(result, KeptPaths(qr, recs, groups, v, lim), hot, lim.cap) && HotTaken(hot, qr, v, lim.each)
    && (Fills(qr, recs, groups, recs, v, lim, hot) <==> |result| == Capped(|scan|, lim.cap))
  }

  lemma {:induction false} LayersAnswer(result: Matches, qr: Query, groups: seq<seq<Shard.File>>, recs: seq<BuildRec>,
      v: O.View, lim: Limits, hot: set<Path>)
    requires qr.Plain() && DistinctPaths(recs) && Concat(groups) == ContentFiles(recs)
    requires Grounded(result, AllNames(qr, MetasOf(FilesOf(recs)), v), AllContents(qr, FilesOf(recs), v))
    requires lim == NO_LIMITS ==> result == LayerScan(qr, MetasOf(FilesOf(recs)), FilesOf(recs), v)
    requires LimitedAnswer(result, KeptPaths(qr, recs, groups, v, lim), hot, lim.cap) && HotTaken(hot, qr, v, lim.each)
    ensures BuiltAnswer(result, qr, groups, recs, v, lim, hot)
  {
    var files := FilesOf(recs);
    OneBuildAgrees(files, v);
    GroundedWithin(result, qr, MetasOf(files), files, v);
    LayersAreScan(qr, MetasOf(files), files, v);
    LimitExact(qr, recs, groups, recs, v, lim, hot, LayerScan(qr, MetasOf(files), files, v));
  }

  lemma {:induction false} NothingUpdated(files: Files, qr: Query)
    ensures Updated(files, map[]) == files && HotPaths(qr, map[]) == {}
  {
  }

  /** In a query by name alone, the limit counts the hits in scope: over an overlay that has
      nothing to say, the result is as long as the limited scan. */
  lemma {:induction false} ScopedLimit(result: Matches, srcs: seq<seq<byte>>, groups: seq<seq<Shard.File>>,
      h: nat -> nat, qr: Query, recs: seq<BuildRec>, limit: Option<nat>, hot: set<Path>)
    requires ShardSet(srcs, groups, h, recs) && !qr.wantCt
    requires BuiltAnswer(result, qr, groups, recs, map[], LimitsOf(limit, true, false), hot)
    ensures |result| == Capped(|ScanFiles(qr, FilesOf(recs))|, limit)
  {
    var lim, v: O.View := LimitsOf(limit, true, false), map[];
    NothingUpdated(FilesOf(recs), qr);
    HotWithin(hot, qr, v, lim.each);
    KeptFills(srcs, groups, h, qr, recs, recs, v, lim);
    assert Fills(qr, recs, groups, recs, v, lim, hot);
  }
}
