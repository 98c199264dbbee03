/** The consumer of an index build: one pass over the walked records into the filename
    database and a run of content shards with their manifest. */
module ContentBuild {
  import opened Prelude
  import opened Bytes
  import opened Decimals
  import opened Records
  import opened Shard
  import opened M = Manifest
  import FileDb
  import Postings

  /** What the walker sends for one path; content only for text files. */
  datatype BuildRec = BuildRec(path: Str, isDir: bool, size: i64, mtime: i64, content: Option<seq<byte>>)

  function MetaOf(r: BuildRec): LiteMeta { LiteMeta(r.isDir, r.size, r.mtime) }

  function DocsOf(recs: seq<BuildRec>): (docs: seq<FileDb.Doc>)
    ensures |docs| == |recs|
  {
    seq(|recs|, i requires 0 <= i < |recs| => FileDb.Doc(recs[i].path, MetaOf(recs[i])))
  }

  /** The files that carry content, in the order of arrival. */
  function ContentFiles(recs: seq<BuildRec>): (files: seq<File>)
    ensures |files| <= |recs|
  {
    if recs == [] then []
    else
      var n := |recs| - 1;
      ContentFiles(recs[..n]) + (match recs[n].content
                                 case None => []
                                 case Some(c) => [File(recs[n].path, MetaOf(recs[n]), c)])
  }

  type Packed = (seq<seq<File>>, seq<File>)

  /** The shards after one more file; the open one is closed when it is full. */
  function Grown(packed: Packed, f: File, flush: nat): Packed {
    var (done, cur) := packed;
    if |Corpus(cur + [f])| >= flush then (done + [cur + [f]], []) else (done, cur + [f])
  }

  /** The files of the closed shards and of the open one: a shard is closed as soon as
      its contents reach `flush` bytes. */
  function Pack(files: seq<File>, flush: nat): Packed {
    if files == [] then ([], []) else Grown(Pack(files[..|files| - 1], flush), files[|files| - 1], flush)
  }

  /** The files of each shard of a finished build. */
  function Groups(files: seq<File>, flush: nat): seq<seq<File>> {
    var (done, cur) := Pack(files, flush);
    if cur == [] then done else done + [cur]
  }

  function Concat(groups: seq<seq<File>>): seq<File> {
    if groups == [] then [] else groups[0] + Concat(groups[1..])
  }

  function Total(groups: seq<seq<File>>): nat {
    if groups == [] then 0 else Total(groups[..|groups| - 1]) + |groups[|groups| - 1]|
  }

  // ---------------------------------------------------------------- file names

  function ShardName(id: nat): Str {
    NameIsText(id);
    Ascii("shard-") + Decimal(id, 5) + Ascii(".dfcs")
  }

  lemma {:induction false} NameIsText(id: nat)
    ensures Utf8(Ascii("shard-") + Decimal(id, 5) + Ascii(".dfcs"))
  {
    DecimalRoundTrip(id, 5);
    AsciiText("shard-");
    AsciiText(".dfcs");
    AsciiIsUtf8(Ascii("shard-") + Decimal(id, 5) + Ascii(".dfcs"), 0);
  }

  lemma {:induction false} AsciiText(s: string)
    requires forall i :: 0 <= i < |s| ==> s[i] as int < 0x80
    ensures forall b :: b in Ascii(s) ==> b < 0x80
  {
  }

  /** The name is the number, with five digits or more, between fixed letters. */
  lemma {:induction false} ShardNameExact(id: nat)
    ensures var n := ShardName(id);
            && |n| >= 16 && n[..6] == Ascii("shard-") && n[|n| - 5..] == Ascii(".dfcs")
            && FromDecimal(n[6..|n| - 5]) == id && forall i :: 6 <= i < |n| - 5 ==> '0' as int <= n[i] <= '9' as int
    ensures MANIFEST_NAME == Ascii("MANIFEST")
  {
    var n := ShardName(id);
    DecimalRoundTrip(id, 5);
    assert n[6..|n| - 5] == Decimal(id, 5);
    forall i | 6 <= i < |n| - 5 ensures IsDigit(n[i]) { assert n[6..|n| - 5][i - 6] == n[i]; }
  }

  /** No two shards share a file. */
  lemma {:induction false} ShardNameInjective(a: nat, b: nat)
    requires ShardName(a) == ShardName(b)
    ensures a == b
  {
    var n := ShardName(a);
    assert n[6..|n| - 5] == Decimal(a, 5) && n[6..|n| - 5] == Decimal(b, 5);
    DecimalRoundTrip(a, 5);
    DecimalRoundTrip(b, 5);
  }

  // ---------------------------------------------------------------- what is written

  type Dir = map<seq<byte>, seq<byte>>

  /** What the manifest lists for the shards: each with its id, the number of documents
      before it and its size. */
  function EntriesOf(groups: seq<seq<File>>): (es: seq<ShardEntry>)
    ensures |es| == |groups|
  {
    if groups == [] then []
    else
      var n := |groups| - 1;
      EntriesOf(groups[..n]) + [ShardEntry(n, Total(groups[..n]), |groups[n]|, ShardName(n))]
  }

  lemma {:induction false} EntryAt(groups: seq<seq<File>>, k: nat)
    requires k < |groups|
    ensures EntriesOf(groups)[k] == ShardEntry(k, Total(groups[..k]), |groups[k]|, ShardName(k))
  {
    var n := |groups| - 1;
    if k < n {
      EntryAt(groups[..n], k);
      assert groups[..n][..k] == groups[..k];
    }
  }

  lemma {:induction false} NextEntry(groups: seq<seq<File>>, g: seq<File>)
    ensures var n := |groups|;
            EntriesOf(groups + [g]) == EntriesOf(groups) + [ShardEntry(n, Total(groups), |g|, ShardName(n))]
  {
    assert (groups + [g])[..|groups|] == groups;
  }

  /** The file of a listed shard is the shard of its group. */
  ghost predicate WrittenShard(dir: Dir, e: ShardEntry, files: seq<File>, h: nat -> nat, time: nat) {
    e.file in dir && (|dir[e.file]| < U32 ==> IsShard(dir[e.file], h, Stamp(time, e.shardId, e.baseDocid), files))
  }

  ghost predicate Written(dir: Dir, entries: seq<ShardEntry>, groups: seq<seq<File>>, h: nat -> nat, time: nat) {
    entries == EntriesOf(groups) && forall k :: 0 <= k < |entries| ==> WrittenShard(dir, entries[k], groups[k], h, time)
  }

  /** The file of one of the first `n` shards. */
  ghost predicate ShardFile(f: seq<byte>, n: nat) { exists k: nat :: k < n && f == ShardName(k) }

  /** Of the directory that a build found, only the files of the first `n` shards are
      written over. */
  ghost predicate Leaves(existing: Dir, dir: Dir, n: nat) {
    forall f :: f in existing && !ShardFile(f, n) ==> f in dir && dir[f] == existing[f]
  }

  lemma {:induction false} LeavesNext(existing: Dir, dir: Dir, n: nat, bytes: seq<byte>)
    requires Leaves(existing, dir, n)
    ensures Leaves(existing, dir[ShardName(n) := bytes], n + 1)
  {
    assert ShardFile(ShardName(n), n + 1);
    forall f | ShardFile(f, n) ensures ShardFile(f, n + 1) { var k: nat :| k < n && f == ShardName(k); }
  }

  lemma {:induction false} WriteNext(dir: Dir, entries: seq<ShardEntry>, groups: seq<seq<File>>, h: nat -> nat,
      time: nat, files: seq<File>, bytes: seq<byte>, e: ShardEntry)
    requires Written(dir, entries, groups, h, time)
    requires e == ShardEntry(|groups|, Total(groups), |files|, ShardName(|groups|))
    requires |bytes| < U32 ==> IsShard(bytes, h, Stamp(time, |groups|, Total(groups)), files)
    ensures Written(dir[e.file := bytes], entries + [e], groups + [files], h, time)
  {
    var next, more := dir[e.file := bytes], entries + [e];
    NextEntry(groups, files);
    forall k | 0 <= k < |groups| ensures WrittenShard(next, more[k], groups[k], h, time) {
      assert WrittenShard(dir, entries[k], groups[k], h, time);
      EntryAt(groups, k);
      if ShardName(k) == e.file { ShardNameInjective(k, |groups|); }
    }
  }

  lemma {:induction false} TotalAppend(groups: seq<seq<File>>, g: seq<File>)
    ensures Total(groups + [g]) == Total(groups) + |g|
  {
    assert (groups + [g])[..|groups|] == groups;
  }

  lemma {:induction false} PackBound(files: seq<File>, flush: nat)
    ensures var (done, cur) := Pack(files, flush); Total(done) + |cur| == |files|
  {
    if files != [] {
      PackBound(files[..|files| - 1], flush);
      var (done, cur) := Pack(files[..|files| - 1], flush);
      TotalAppend(done, cur + [files[|files| - 1]]);
    }
  }

  lemma {:induction false} NextDoc(recs: seq<BuildRec>, rec: BuildRec)
    ensures DocsOf(recs + [rec]) == DocsOf(recs) + [FileDb.Doc(rec.path, MetaOf(rec))]
  {
  }

  /** The shards after one more record. */
  function Received(packed: Packed, rec: BuildRec, flush: nat): Packed {
    match rec.content case None => packed case Some(c) => Grown(packed, File(rec.path, MetaOf(rec), c), flush)
  }

  lemma {:induction false} NextRecord(recs: seq<BuildRec>, rec: BuildRec, flush: nat)
    ensures Pack(ContentFiles(recs + [rec]), flush) == Received(Pack(ContentFiles(recs), flush), rec, flush)
  {
    assert (recs + [rec])[..|recs|] == recs;
    var files := ContentFiles(recs);
    if rec.content.Some? {
      var f := File(rec.path, MetaOf(rec), rec.content.value);
      assert ContentFiles(recs + [rec]) == files + [f] && (files + [f])[..|files|] == files;
    } else {
      assert files + [] == files;
    }
  }

  /** The counters and what is written after the shards `done`, with `cur` open. */
  ghost predicate Stands(shardId: nat, baseDocid: nat, contentDocs: nat, done: seq<seq<File>>, cur: seq<File>) {
    shardId == |done| <= baseDocid == Total(done) && contentDocs == baseDocid + |cur|
  }

  /** The variables of the consumer thread. */
  class Consumer {
    const flush: nat
    const h: nat -> nat
    const buildTime: nat
    const fnb: FileDb.DbBuilder
    var shard: ShardBuilder
    var shardId: nat
    var baseDocid: nat
    var contentDocs: nat
    var entries: seq<ShardEntry>
    var dir: Dir
    ghost const existing: Dir
    ghost var recs: seq<BuildRec>
    ghost var packed: Packed

    ghost predicate Valid()
      reads this, fnb, shard
    {
      var names, shards := NamesValid(), ShardValid(packed.0, packed.1);
      names && shards && |recs| <= Postings.MAX_DOCS && packed == Pack(ContentFiles(recs), flush)
    }

    ghost predicate NamesValid()
      reads this`recs, fnb
    {
      var builder := fnb.Valid();
      builder && fnb.docs == DocsOf(recs) && fnb.buildTime == buildTime < U64
    }

    /** `done` is written, and the open shard holds `cur`. */
    ghost predicate ShardValid(done: seq<seq<File>>, cur: seq<File>)
      reads this`shard, this`shardId, this`baseDocid, this`contentDocs, this`entries, this`dir, shard
    {
      var builder, written := shard.Valid(), Written(dir, entries, done, h, buildTime) && Leaves(existing, dir, |done|);
      && builder && shard.files == cur && shard.shardId == shardId && shard.baseDocid == baseDocid
      && Stands(shardId, baseDocid, contentDocs, done, cur) && written
    }

    constructor (flush: nat, h: nat -> nat, buildTime: nat, existing: Dir)
      requires buildTime < U64
      ensures Valid() && recs == [] && fresh(fnb) && fresh(shard)
      ensures this.flush == flush && this.h == h && this.buildTime == buildTime && this.existing == existing
    {
      var b := new FileDb.DbBuilder();
      b.SetBuildTime(buildTime);
      fnb := b;
      this.flush, this.h, this.buildTime, this.existing := flush, h, buildTime, existing;
      shardId, baseDocid, contentDocs, entries, dir := 0, 0, 0, [], existing;
      recs, packed := [], ([], []);
      shard := new ShardBuilder(0, 0);
    }

    /** One record from the channel. */
    method Receive(rec: BuildRec)
      requires Valid() && |recs| < Postings.MAX_DOCS
      modifies this, fnb, shard
      ensures Valid() && recs == old(recs) + [rec] && (shard == old(shard) || fresh(shard))
    {
      assert contentDocs < Postings.MAX_DOCS by { DocsBound(); }
      TakeName(rec);
      TakeContent(rec);
      assert packed == Pack(ContentFiles(recs), flush) by { NextRecord(old(recs), rec, flush); }
    }

    lemma {:induction false} DocsBound()
      requires Valid()
      ensures contentDocs <= |recs|
    {
      PackBound(ContentFiles(recs), flush);
    }

    method TakeName(rec: BuildRec)
      requires NamesValid() && |recs| < Postings.MAX_DOCS
      modifies this`recs, fnb
      ensures NamesValid() && recs == old(recs) + [rec]
    {
      NextDoc(recs, rec);
      var id := fnb.InsertWith(rec.path, rec.isDir, rec.size, rec.mtime);
      recs := recs + [rec];
    }

    method TakeContent(rec: BuildRec)
      requires ShardValid(packed.0, packed.1) && contentDocs < Postings.MAX_DOCS && buildTime < U64
      modifies this`shard, this`shardId, this`baseDocid, this`contentDocs, this`entries, this`dir, this`packed, shard
      ensures packed == Received(old(packed), rec, flush) && ShardValid(packed.0, packed.1)
      ensures shard == old(shard) || fresh(shard)
    {
      if rec.content.None? { return; }
      AddContent(rec, File(rec.path, MetaOf(rec), rec.content.value));
      ghost var grown := packed.1 + [File(rec.path, MetaOf(rec), rec.content.value)];
      if shard.ContentBytes() >= flush {
        RollOver(packed.0, grown);
        packed := (packed.0 + [grown], []);
      } else {
        packed := (packed.0, grown);
      }
    }

    method AddContent(rec: BuildRec, ghost f: File)
      requires ShardValid(packed.0, packed.1) && contentDocs < Postings.MAX_DOCS
      requires rec.content == Some(f.content) && f == File(rec.path, MetaOf(rec), f.content)
      modifies this`contentDocs, shard
      ensures ShardValid(packed.0, packed.1 + [f])
    {
      shard.AddFile(rec.path, rec.isDir, rec.size, rec.mtime, rec.content.value);
      contentDocs := contentDocs + 1;
    }

    /** Closes the open shard and opens the next one. */
    method RollOver(ghost done: seq<seq<File>>, ghost cur: seq<File>)
      requires ShardValid(done, cur) && cur != [] && contentDocs <= Postings.MAX_DOCS && buildTime < U64
      modifies this`shard, this`shardId, this`baseDocid, this`entries, this`dir
      ensures fresh(shard) && ShardValid(done + [cur], [])
    {
      var n := CloseShard(done);
      shardId := shardId + 1;
      baseDocid := baseDocid + n;
      shard := new ShardBuilder(shardId, baseDocid);
    }

    /** Writes the open shard under its name and lists it. */
    method CloseShard(ghost done: seq<seq<File>>) returns (n: nat)
      requires shard.Valid() && buildTime < U64
      requires Written(dir, entries, done, h, buildTime) && Leaves(existing, dir, |done|)
      requires shard.shardId == shardId == |done| && shard.baseDocid == baseDocid == Total(done)
      modifies this`dir, this`entries
      ensures n == |shard.files| && Total(done + [shard.files]) == Total(done) + n
      ensures Written(dir, entries, done + [shard.files], h, buildTime) && Leaves(existing, dir, |done| + 1)
    {
      n := shard.DocCount();
      var bytes := shard.Finish(h, buildTime);
      var e := ShardEntry(shardId, baseDocid, n, ShardName(shardId));
      WriteNext(dir, entries, done, h, buildTime, shard.files, bytes, e);
      LeavesNext(existing, dir, shardId, bytes);
      TotalAppend(done, shard.files);
      dir := dir[e.file := bytes];
      entries := entries + [e];
    }

    /** The channel is closed: the last, partial shard and the database. */
    method Finish(z: FileDb.Zstd) returns (fnBytes: seq<byte>)
      requires Valid()
      modifies this
      ensures Written(dir, entries, Groups(ContentFiles(recs), flush), h, buildTime)
      ensures Leaves(existing, dir, |Groups(ContentFiles(recs), flush)|)
      ensures contentDocs == Total(Groups(ContentFiles(recs), flush)) && recs == old(recs)
      ensures |fnBytes| < U64 && FileDb.Fits(z, DocsOf(recs)) ==> FileDb.IsDb(fnBytes, h, z, buildTime, DocsOf(recs))
    {
      if shard.DocCount() > 0 { var n := CloseShard(packed.0); }
      fnBytes := fnb.Finish(h, z);
    }
  }

  // ---------------------------------------------------------------- partition

  lemma {:induction false} ConcatAppend(groups: seq<seq<File>>, g: seq<File>)
    ensures Concat(groups + [g]) == Concat(groups) + g
  {
    if groups == [] {
      assert [g][1..] == [] && g + [] == g && [] + g == g;
    } else {
      assert (groups + [g])[1..] == groups[1..] + [g];
      ConcatAppend(groups[1..], g);
    }
  }

  /** The shards hold the content files in the order of arrival, none lost or doubled. */
  lemma {:induction false} PackPartition(files: seq<File>, flush: nat)
    ensures var (done, cur) := Pack(files, flush); Concat(done) + cur == files
  {
    if files != [] {
      var n := |files| - 1;
      PackPartition(files[..n], flush);
      GrownPartition(Pack(files[..n], flush), files[n], flush);
      SplitLast(files);
    }
  }

  lemma {:induction false} GrownPartition(packed: Packed, f: File, flush: nat)
    ensures var next := Grown(packed, f, flush); Concat(next.0) + next.1 == Concat(packed.0) + packed.1 + [f]
  {
    var (done, cur) := packed;
    ConcatAppend(done, cur + [f]);
    assert Concat(done) + (cur + [f]) == Concat(done) + cur + [f];
    assert Concat(done) + (cur + [f]) + [] == Concat(done) + (cur + [f]);
  }

  /** No prefix of `files` but possibly all of them reaches `flush` bytes. */
  ghost predicate UnderBefore(files: seq<File>, flush: nat) {
    forall i :: 0 < i < |files| ==> |Corpus(files[..i])| < flush
  }

  /** A shard that ends where it reaches the threshold, and not before. */
  ghost predicate Full(g: seq<File>, flush: nat) { g != [] && UnderBefore(g, flush) && |Corpus(g)| >= flush }

  lemma {:induction false} PackFull(files: seq<File>, flush: nat)
    ensures var (done, cur) := Pack(files, flush);
            && (forall g :: g in done ==> Full(g, flush))
            && UnderBefore(cur, flush) && (cur != [] ==> |Corpus(cur)| < flush)
  {
    if files != [] {
      var n := |files| - 1;
      PackFull(files[..n], flush);
      var cur := Pack(files[..n], flush).1;
      var grown := cur + [files[n]];
      forall i | 0 < i < |grown| ensures |Corpus(grown[..i])| < flush {
        assert grown[..i] == cur[..i] && cur[..|cur|] == cur;
      }
    }
  }

  /** No shard is empty, and all but the last are full. */
  lemma {:induction false} GroupsCut(files: seq<File>, flush: nat)
    ensures var groups := Groups(files, flush);
            && (forall g :: g in groups ==> g != [] && UnderBefore(g, flush))
            && forall k :: 0 <= k < |groups| - 1 ==> Full(groups[k], flush)
  {
    PackFull(files, flush);
    var done := Pack(files, flush).0;
    forall k | 0 <= k < |Groups(files, flush)| - 1 ensures Full(Groups(files, flush)[k], flush) {
      assert Groups(files, flush)[k] == done[k] && done[k] in done;
    }
  }

  lemma {:induction false} TotalIsCount(groups: seq<seq<File>>)
    ensures Total(groups) == |Concat(groups)|
  {
    if groups != [] {
      TotalIsCount(groups[1..]);
      TotalFirst(groups);
    }
  }

  lemma {:induction false} TotalFirst(groups: seq<seq<File>>)
    requires groups != []
    ensures Total(groups) == |groups[0]| + Total(groups[1..])
  {
    var n := |groups| - 1;
    if n > 0 {
      assert groups[..n][0] == groups[0] && groups[..n][1..] == groups[1..][..n - 1];
      TotalFirst(groups[..n]);
    } else {
      assert groups[..0] == [] && groups[1..] == [];
    }
  }

  /** A base docid is the global number of the first file of its shard. */
  lemma {:induction false} GlobalDocid(groups: seq<seq<File>>, k: nat, d: nat)
    requires k < |groups| && d < |groups[k]|
    ensures Total(groups[..k]) + d < |Concat(groups)| && Concat(groups)[Total(groups[..k]) + d] == groups[k][d]
    decreases k
  {
    if k > 0 {
      GlobalDocid(groups[1..], k - 1, d);
      assert groups[..k][1..] == groups[1..][..k - 1];
      TotalFirst(groups[..k]);
    } else {
      assert groups[..0] == [];
    }
  }

  /** The whole build: the shards partition the content files, and the manifest total
      is their number. */
  lemma {:induction false} BuildPartitions(files: seq<File>, flush: nat)
    ensures Concat(Groups(files, flush)) == files && Total(Groups(files, flush)) == |files|
  {
    var (done, cur) := Pack(files, flush);
    PackPartition(files, flush);
    ConcatAppend(done, cur);
    TotalIsCount(Groups(files, flush));
    assert cur == [] ==> Concat(done) + cur == Concat(done);
  }

  // ---------------------------------------------------------------- the index on disk

  const MANIFEST_NAME: seq<byte> := Ascii("MANIFEST")

  datatype IndexFiles = IndexFiles(db: seq<byte>, dir: Dir)

  /** A consumer that has taken in `recs`. */
  ghost predicate Took(c: Consumer, recs: seq<BuildRec>)
    reads c, c.fnb, c.shard
  {
    var valid := c.Valid();
    valid && c.recs == recs
  }

  method Consume(recs: seq<BuildRec>, flush: nat, h: nat -> nat, buildTime: nat, existing: Dir)
    returns (c: Consumer)
    requires |recs| <= Postings.MAX_DOCS && buildTime < U64
    ensures fresh(c) && Took(c, recs) && c.existing == existing
    ensures c.flush == flush && c.h == h && c.buildTime == buildTime
  {
    c := new Consumer(flush, h, buildTime, existing);
    ghost var done: seq<BuildRec> := [];
    for i := 0 to |recs|
      invariant fresh(c) && fresh(c.fnb) && fresh(c.shard) && Took(c, done) && done == recs[..i]
    {
      c.Receive(recs[i]);
      NextPrefix(recs, i);
      done := done + [recs[i]];
    }
  }

  /** Builds both layers, over what the directory holds already, and writes the manifest
      beside the shards. */
  method BuildIndex(recs: seq<BuildRec>, flush: nat, h: nat -> nat, z: FileDb.Zstd, buildTime: nat, existing: Dir)
    returns (out: IndexFiles)
    requires |recs| <= Postings.MAX_DOCS && buildTime < U64
    ensures Indexes(out, recs, flush, h, z, buildTime)
    ensures Leaves(existing - {MANIFEST_NAME}, out.dir, |Groups(ContentFiles(recs), flush)|)
  {
    var c := Consume(recs, flush, h, buildTime, existing);
    var fnBytes := c.Finish(z);
    var m := Manifest(buildTime, c.contentDocs, c.entries);
    var bytes := WriteManifest(m, recs, flush, h, c.dir);
    out := IndexFiles(fnBytes, c.dir[MANIFEST_NAME := bytes]);
  }

  method WriteManifest(m: Manifest, ghost recs: seq<BuildRec>, ghost flush: nat, ghost h: nat -> nat, ghost dir: Dir)
    returns (bytes: seq<byte>)
    requires |recs| <= Postings.MAX_DOCS && m.buildTime < U64
    requires var groups := Groups(ContentFiles(recs), flush);
             m.totalContentDocs == Total(groups) && Written(dir, m.shards, groups, h, m.buildTime)
    ensures Decode(bytes) == Some(m) && m.totalContentDocs == |ContentFiles(recs)|
    ensures Written(dir[MANIFEST_NAME := bytes], m.shards, Groups(ContentFiles(recs), flush), h, m.buildTime)
  {
    ghost var groups := Groups(ContentFiles(recs), flush);
    BuildPartitions(ContentFiles(recs), flush);
    GroupsCut(ContentFiles(recs), flush);
    EntriesFit(dir, m.shards, groups, h, m.buildTime);
    bytes := EncodeManifest(m);
    M.RoundTrip(m);
    ManifestBeside(dir, m.shards, groups, h, m.buildTime, bytes);
  }

  /** The files of a finished build: a database of all records, and a manifest that
      lists the shards of the content files. */
  ghost predicate Indexes(out: IndexFiles, recs: seq<BuildRec>, flush: nat, h: nat -> nat, z: FileDb.Zstd, time: nat) {
    && (|out.db| < U64 && FileDb.Fits(z, DocsOf(recs)) ==> FileDb.IsDb(out.db, h, z, time, DocsOf(recs)))
    && MANIFEST_NAME in out.dir
    && var m := Decode(out.dir[MANIFEST_NAME]); var groups := Groups(ContentFiles(recs), flush);
       && m.Some? && m.value.buildTime == time && m.value.totalContentDocs == |ContentFiles(recs)|
       && Written(out.dir, m.value.shards, groups, h, time)
  }

  lemma {:induction false} PrefixTotal(groups: seq<seq<File>>, k: nat)
    requires k <= |groups|
    ensures Total(groups[..k]) <= Total(groups)
    decreases |groups| - k
  {
    if k < |groups| {
      assert groups[..k + 1][..k] == groups[..k];
      PrefixTotal(groups, k + 1);
    } else {
      assert groups[..k] == groups;
    }
  }

  lemma {:induction false} NameFits(id: nat)
    requires id < U32
    ensures |ShardName(id)| < U32
  {
    assert Tens(4) == 10000 && Tens(8) == 10000 * Tens(4) && Tens(10) == 100 * Tens(8);
    DecimalLength(id, 5, 10);
  }

  lemma {:induction false} GroupFits(groups: seq<seq<File>>, k: nat)
    requires k < |groups| && forall g :: g in groups ==> g != []
    ensures k + 1 <= Total(groups[..k + 1]) <= Total(groups)
    ensures Total(groups[..k]) <= Total(groups) && |groups[k]| <= Total(groups)
  {
    assert groups[..k + 1][..k] == groups[..k];
    PrefixTotal(groups, k + 1);
    PrefixTotal(groups, k);
    assert groups[k] in groups;
    if k > 0 { GroupFits(groups, k - 1); } else { assert groups[..0] == []; }
  }

  lemma {:induction false} EntriesFit(dir: Dir, entries: seq<ShardEntry>, groups: seq<seq<File>>, h: nat -> nat,
      time: nat)
    requires Written(dir, entries, groups, h, time) && Total(groups) <= Postings.MAX_DOCS
    requires forall g :: g in groups ==> g != []
    ensures |entries| < U32 && forall e :: e in entries ==> FitsEntry(e)
  {
    if groups != [] { GroupFits(groups, |groups| - 1); }
    forall e | e in entries ensures FitsEntry(e) {
      var k :| 0 <= k < |entries| && entries[k] == e;
      EntryAt(groups, k);
      GroupFits(groups, k);
      NameFits(k);
    }
  }

  lemma {:induction false} ManifestBeside(dir: Dir, entries: seq<ShardEntry>, groups: seq<seq<File>>, h: nat -> nat,
      time: nat, bytes: seq<byte>)
    requires Written(dir, entries, groups, h, time)
    ensures Written(dir[MANIFEST_NAME := bytes], entries, groups, h, time)
  {
    var next := dir[MANIFEST_NAME := bytes];
    forall k | 0 <= k < |groups| ensures WrittenShard(next, entries[k], groups[k], h, time) {
      assert WrittenShard(dir, entries[k], groups[k], h, time);
      EntryAt(groups, k);
      assert ShardName(k)[0] == 's' as int && MANIFEST_NAME[0] == 'M' as int;
    }
  }
}
