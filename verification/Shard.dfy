/** The `.dfcs` content shard: builder, writer and reader. */
module Shard {
  import opened Prelude
  import opened Bytes
  import opened Text
  import opened Records
  import opened TrigramIndex
  import Bits
  import RobinHood
  import Container
  import Postings
  import Candidates

  type Tag = Container.Tag

  datatype File = File(path: Str, meta: LiteMeta, content: seq<byte>)

  const SHARD_VERSION: nat := 1
  const OFFSET_LEN: nat := 12

  const META_DATA := Ascii("metaData")
  const FILE_NAMES := Ascii("fileNames")
  const FILE_META := Ascii("fileMeta")
  const CONTENT_OFFSETS := Ascii("contentOffsets")
  const CONTENT_CORPUS := Ascii("contentCorpus")
  const CT_HASH := Ascii("ctHash")
  const CT_POSTINGS := Ascii("ctPostings")

  const KNOWN: set<Tag> :=
    {META_DATA, FILE_NAMES, FILE_META, CONTENT_OFFSETS, CONTENT_CORPUS, CT_HASH, CT_POSTINGS}

  // ---------------------------------------------------------------- contents

  function Paths(files: seq<File>): (r: seq<Str>)
    ensures |r| == |files|
  {
    seq(|files|, i requires 0 <= i < |files| => files[i].path)
  }

  function Metas(files: seq<File>): (r: seq<LiteMeta>)
    ensures |r| == |files|
  {
    seq(|files|, i requires 0 <= i < |files| => files[i].meta)
  }

  function Folded(files: seq<File>): (r: seq<seq<byte>>)
    ensures |r| == |files|
  {
    seq(|files|, i requires 0 <= i < |files| => Fold(files[i].content))
  }

  function Corpus(files: seq<File>): seq<byte> {
    if files == [] then [] else Corpus(files[..|files| - 1]) + files[|files| - 1].content
  }

  function Offsets(files: seq<File>): (r: seq<(nat, nat)>)
    ensures |r| == |files|
  {
    seq(|files|, i requires 0 <= i < |files| => (|Corpus(files[..i])|, |files[i].content|))
  }

  function OffsetRecord(o: (nat, nat)): (b: seq<byte>)
    ensures |b| == OFFSET_LEN
  {
    LE64(Cut64(o.0)) + LE32(Cut32(o.1))
  }

  function OffsetRecords(os: seq<(nat, nat)>): (b: seq<byte>)
    ensures |b| == OFFSET_LEN * |os|
  {
    if os == [] then [] else OffsetRecords(os[..|os| - 1]) + OffsetRecord(os[|os| - 1])
  }

  function MetaBytes(time: nat, id: nat, base: nat, docs: nat, log2: nat): (b: seq<byte>)
    ensures |b| == 26
  {
    LE16(SHARD_VERSION) + LE64(time) + LE32(id) + LE32(base) + LE32(docs) + LE32(log2)
  }

  function Sections(time: nat, id: nat, base: nat, files: seq<File>, log2: nat, table: seq<byte>, lists: seq<byte>)
    : (secs: seq<Container.Section>)
    ensures |secs| == 7
  {
    [ Container.Section(META_DATA, MetaBytes(time, id, base, Cut32(|files|), log2)),
      Container.Section(FILE_NAMES, PathRecords(Paths(files))),
      Container.Section(FILE_META, MetaRecords(Metas(files))),
      Container.Section(CONTENT_OFFSETS, OffsetRecords(Offsets(files))),
      Container.Section(CONTENT_CORPUS, Corpus(files)),
      Container.Section(CT_HASH, table),
      Container.Section(CT_POSTINGS, lists) ]
  }

  /** The table and the lists of a shard serve the trigram index of its contents. */
  ghost predicate Indexed(t: seq<RobinHood.Slot>, h: nat -> nat, lists: seq<byte>, files: seq<File>, log2: nat) {
    exists m :: IndexedBy(t, h, lists, files, log2, m)
  }

  ghost predicate IndexedBy(t: seq<RobinHood.Slot>, h: nat -> nat, lists: seq<byte>, files: seq<File>, log2: nat,
      m: Index) {
    && Indexes(m, Folded(files)) && Postings.Serves(t, h, lists, 0, m)
    && |t| == (if m == map[] then 0 else Bits.Pow2(log2)) && (log2 == 0 <==> m == map[])
  }

  /** The parameters a shard is stamped with. */
  datatype Stamp = Stamp(time: nat, id: nat, base: nat)

  ghost predicate Stampable(st: Stamp) { st.time < U64 && st.id < U32 && st.base < U32 }

  /** `bytes` is the finished shard of `files`. */
  ghost predicate IsShard(bytes: seq<byte>, h: nat -> nat, st: Stamp, files: seq<File>) {
    exists log2: nat, t, lists :: Holds(bytes, h, st, files, log2, t, lists)
  }

  ghost predicate Holds(bytes: seq<byte>, h: nat -> nat, st: Stamp, files: seq<File>, log2: nat,
      t: seq<RobinHood.Slot>, lists: seq<byte>) {
    && Stampable(st) && |bytes| < U32
    && bytes == Container.Assemble(Sections(st.time, st.id, st.base, files, log2, RobinHood.TableBytes(t), lists))
    && Indexed(t, h, lists, files, log2)
  }

  // ---------------------------------------------------------------- builder

  class ShardBuilder {
    const shardId: nat
    const baseDocid: nat
    var paths: seq<Str>
    var meta: seq<LiteMeta>
    var corpus: seq<byte>
    var offsets: seq<(nat, nat)>
    var tryMap: Index
    ghost var files: seq<File>

    ghost predicate Valid()
      reads this
    {
      && shardId < U32 && baseDocid < U32 && |files| <= Postings.MAX_DOCS
      && paths == Paths(files) && meta == Metas(files)
      && corpus == Corpus(files) && offsets == Offsets(files)
      && Indexes(tryMap, Folded(files))
    }

    constructor (shardId: nat, baseDocid: nat)
      requires shardId < U32 && baseDocid < U32
      ensures Valid() && files == [] && this.shardId == shardId && this.baseDocid == baseDocid
    {
      this.shardId, this.baseDocid := shardId, baseDocid;
      paths, meta, corpus, offsets, tryMap := [], [], [], [], map[];
      files := [];
      new;
      forall t: nat ensures Entry(map[], t, PostingOf(Folded([]), t)) { assert Folded([]) == []; }
    }

    method AddFile(path: Str, isDir: bool, size: i64, mtime: i64, content: seq<byte>)
      requires Valid() && |files| < Postings.MAX_DOCS
      modifies this
      ensures Valid() && files == old(files) + [File(path, LiteMeta(isDir, size, mtime), content)]
    {
      var docid := |paths|;
      paths := paths + [path];
      meta := meta + [LiteMeta(isDir, size, mtime)];
      var off := |corpus|;
      corpus := corpus + content;
      offsets := offsets + [(off, |content|)];
      var folded := new byte[|content|](i requires 0 <= i < |content| => content[i]);
      assert folded[..] == content;
      FoldInPlace(folded);
      ghost var f := File(path, LiteMeta(isDir, size, mtime), content);
      tryMap := AddText(tryMap, Folded(files), docid, folded[..]);
      GrowFiles(files, f);
      files := files + [f];
    }

    function DocCount(): nat
      reads this
    {
      |paths|
    }

    function ContentBytes(): nat
      reads this
    {
      |corpus|
    }

    /** The shard bytes; they are a shard of the added files whenever they stay
        below the 32-bit offsets of the format. */
    method Finish(h: nat -> nat, buildTime: nat) returns (out: seq<byte>)
      requires Valid() && buildTime < U64
      ensures |out| < U32 ==> IsShard(out, h, Stamp(buildTime, shardId, baseDocid), files)
    {
      var numDocs := Cut32(|paths|);
      var fileNames := WritePaths(paths);
      var fileMeta := WriteMetas(meta);
      var contentOffsets := WriteOffsets(offsets);
      Postings.StoringTexts(tryMap, Folded(files));
      var log2, slots := Postings.TableSize(tryMap);
      var table, lists;
      ghost var t;
      table, lists, t := Postings.WriteIndex(h, tryMap, slots, log2, 0);
      var secs := [
        Container.Section(META_DATA, MetaBytes(buildTime, shardId, baseDocid, numDocs, log2)),
        Container.Section(FILE_NAMES, fileNames),
        Container.Section(FILE_META, fileMeta),
        Container.Section(CONTENT_OFFSETS, contentOffsets),
        Container.Section(CONTENT_CORPUS, corpus),
        Container.Section(CT_HASH, table),
        Container.Section(CT_POSTINGS, lists) ];
      out := Container.Write(secs);
      if |out| < U32 {
        Container.PartsShorter(secs, 6);
        assert Postings.ListsFit(tryMap);
        assert IndexedBy(t, h, lists, files, log2, tryMap);
        assert secs == Sections(buildTime, shardId, baseDocid, files, log2, RobinHood.TableBytes(t), lists);
        assert Holds(out, h, Stamp(buildTime, shardId, baseDocid), files, log2, t, lists);
      }
    }
  }

  lemma {:induction false} GrowFiles(files: seq<File>, f: File)
    ensures Paths(files + [f]) == Paths(files) + [f.path]
    ensures Metas(files + [f]) == Metas(files) + [f.meta]
    ensures Folded(files + [f]) == Folded(files) + [Fold(f.content)]
    ensures Corpus(files + [f]) == Corpus(files) + f.content
    ensures Offsets(files + [f]) == Offsets(files) + [(|Corpus(files)|, |f.content|)]
  {
    var all := files + [f];
    assert all[..|files|] == files;
    forall i | 0 <= i < |files| ensures all[..i] == files[..i] { }
  }

  method WriteOffsets(os: seq<(nat, nat)>) returns (out: seq<byte>)
    ensures out == OffsetRecords(os)
  {
    out := [];
    for i := 0 to |os|
      invariant out == OffsetRecords(os[..i])
    {
      assert os[..i + 1][..i] == os[..i];
      out := out + LE64(Cut64(os[i].0));
      out := out + LE32(Cut32(os[i].1));
    }
    assert os[..|os|] == os;
  }

  // ---------------------------------------------------------------- reader

  datatype ShardReader = ShardReader(
    bytes: seq<byte>, buildTime: nat, shardId: nat, numDocs: nat, baseDocid: nat, log2: nat,
    sect: Container.Directory)
  {
    function Slots(): nat { if log2 == 0 then 0 else Bits.Pow2(log2) }

    function SectionOf(tag: Tag): Result<seq<byte>> {
      if tag !in sect then Err(DbFormat)
      else
        var l := sect[tag];
        if l.off + l.sz > |bytes| then Err(Panic) else Ok(bytes[l.off..l.off + l.sz])
    }

    function Path(d: nat): Result<Str> {
      match SectionOf(FILE_NAMES)
      case Err(e) => Err(e)
      case Ok(names) => ExtractPath(names, 0, d)
    }

    function Meta(d: nat): Result<LiteMeta> {
      match SectionOf(FILE_META)
      case Err(e) => Err(e)
      case Ok(fm) =>
        var at := META_LEN * d;
        if at + META_LEN > |fm| then Err(OutOfRange) else Ok(ReadMeta(fm, at))
    }

    function Content(d: nat): Result<seq<byte>> {
      match SectionOf(CONTENT_OFFSETS)
      case Err(e) => Err(e)
      case Ok(co) =>
        var at := OFFSET_LEN * d;
        if at + OFFSET_LEN > |co| then Err(OutOfRange)
        else
          var off, len := Read(co, at, 8), Read(co, at + 8, 4);
          match SectionOf(CONTENT_CORPUS)
          case Err(e) => Err(e)
          case Ok(corpus) => if off + len > |corpus| then Err(DbFormat) else Ok(corpus[off..off + len])
    }

    function Posting(h: nat -> nat, trig: nat): Result<Option<seq<nat>>> {
      if Slots() == 0 then Ok(None)
      else
        match SectionOf(CT_HASH)
        case Err(e) => Err(e)
        case Ok(table) =>
          match SectionOf(CT_POSTINGS)
          case Err(e) => Err(e)
          case Ok(lists) => Postings.Fetch(table, lists, Slots(), h, trig)
    }

    function Verify(d: nat, needle: seq<byte>, cs: bool): Result<bool> {
      if needle == [] then Ok(true)
      else
        match Content(d)
        case Err(e) => Err(e)
        case Ok(content) => Ok(Contains(if cs then content else Fold(content), needle))
    }

    function Source(h: nat -> nat): Candidates.Source {
      Candidates.Source(numDocs, (t: nat) => Posting(h, t),
                        (d: nat, needle: seq<byte>, cs: bool) => Verify(d, needle, cs))
    }

    method PostingOfTrigram(h: nat -> nat, trig: nat) returns (r: Result<Option<seq<nat>>>)
      ensures r == Posting(h, trig)
    {
      if Slots() == 0 { return Ok(None); }
      var table := SectionOf(CT_HASH);
      if table.Err? { return Err(table.error); }
      var lists := SectionOf(CT_POSTINGS);
      if lists.Err? { return Err(lists.error); }
      r := Postings.FetchPosting(table.value, lists.value, Slots(), h, trig, log2);
    }

    method PathOf(d: nat) returns (r: Result<Str>)
      ensures r == Path(d)
    {
      var names := SectionOf(FILE_NAMES);
      if names.Err? { return Err(names.error); }
      r := FindPath(names.value, d);
    }
  }

  function Open(bytes: seq<byte>): Result<ShardReader> {
    match Container.ParseToc(KNOWN, bytes)
    case Err(e) => Err(e)
    case Ok(sect) => Header(bytes, sect)
  }

  function Header(bytes: seq<byte>, sect: Container.Directory): Result<ShardReader> {
    if META_DATA !in sect then Err(DbFormat)
    else
      var l := sect[META_DATA];
      if l.off + l.sz >= U32 || l.off + l.sz > |bytes| then Err(Panic)
      else
        var md := bytes[l.off..l.off + l.sz];
        if |md| < 2 then Err(Panic)
        else if Read(md, 0, 2) != SHARD_VERSION then Err(DbFormat)
        else if |md| < 26 || Read(md, 22, 4) >= 64 then Err(Panic)
        else
          var time, id, docs := Read(md, 2, 8), Read(md, 10, 4), Read(md, 18, 4);
          Ok(ShardReader(bytes, time, id, docs, Read(md, 14, 4), Read(md, 22, 4), sect))
  }

  method OpenShard(bytes: seq<byte>) returns (r: Result<ShardReader>)
    ensures r == Open(bytes)
  {
    var sect := Container.ReadToc(KNOWN, bytes);
    if sect.Err? { return Err(sect.error); }
    r := Header(bytes, sect.value);
  }

  // ---------------------------------------------------------------- round trip

  lemma {:induction false} TagsDiffer()
    ensures |META_DATA| == 8 && |FILE_NAMES| == 9 && |FILE_META| == 8 && |CONTENT_OFFSETS| == 14
    ensures |CONTENT_CORPUS| == 13 && |CT_HASH| == 6 && |CT_POSTINGS| == 10
    ensures META_DATA != FILE_META
  {
    assert META_DATA[0] == 'm' as int && FILE_META[0] == 'f' as int;
  }

  lemma {:induction false} SectionsDistinct(secs: seq<Container.Section>)
    requires |secs| == 7
    requires secs[0].tag == META_DATA && secs[1].tag == FILE_NAMES && secs[2].tag == FILE_META
    requires secs[3].tag == CONTENT_OFFSETS && secs[4].tag == CONTENT_CORPUS
    requires secs[5].tag == CT_HASH && secs[6].tag == CT_POSTINGS
    ensures Container.DistinctTags(Container.Locs(secs))
    ensures forall i :: 0 <= i < 7 ==> secs[i].tag in KNOWN
  {
    TagsDiffer();
  }

  lemma {:induction false} MetaBytesRead(time: nat, id: nat, base: nat, docs: nat, log2: nat)
    requires time < U64 && id < U32 && base < U32 && docs < U32 && log2 < U32
    ensures var md := MetaBytes(time, id, base, docs, log2);
            && Read(md, 0, 2) == SHARD_VERSION && Read(md, 2, 8) == time && Read(md, 10, 4) == id
            && Read(md, 14, 4) == base && Read(md, 18, 4) == docs && Read(md, 22, 4) == log2
  {
    WidthBounds();
    var md := MetaBytes(time, id, base, docs, log2);
    var a, b, c, d, e, f := LE16(SHARD_VERSION), LE64(time), LE32(id), LE32(base), LE32(docs), LE32(log2);
    assert md == a + b + c + (d + e + f);
    assert md[0..26] == md;
    Quarters(md, 0, a, b, c, d + e + f);
    Halves(md, 14, d + e, f);
    Halves(md, 14, d, e);
    ReadLittle(md, 0, SHARD_VERSION, 2);
    ReadLittle(md, 2, time, 8);
    ReadLittle(md, 10, id, 4);
    ReadLittle(md, 14, base, 4);
    ReadLittle(md, 18, docs, 4);
    ReadLittle(md, 22, log2, 4);
  }

  /** A reader that sees the sections of the shard of `files`. */
  ghost predicate Reads(r: ShardReader, st: Stamp, files: seq<File>, table: seq<byte>, lists: seq<byte>, slots: nat) {
    && r.buildTime == st.time && r.shardId == st.id && r.baseDocid == st.base
    && r.numDocs == |files| && r.Slots() == slots
    && r.SectionOf(FILE_NAMES) == Ok(PathRecords(Paths(files)))
    && r.SectionOf(FILE_META) == Ok(MetaRecords(Metas(files)))
    && r.SectionOf(CONTENT_OFFSETS) == Ok(OffsetRecords(Offsets(files)))
    && r.SectionOf(CONTENT_CORPUS) == Ok(Corpus(files))
    && r.SectionOf(CT_HASH) == Ok(table)
    && r.SectionOf(CT_POSTINGS) == Ok(lists)
  }

  /** What a reader sees of section `i`. */
  lemma {:induction false} SectionSeen(secs: seq<Container.Section>, i: nat, r: ShardReader)
    requires Container.DistinctTags(Container.Locs(secs)) && |Container.Assemble(secs)| < U32
    requires i < |secs| && secs[i].tag in KNOWN
    requires r.bytes == Container.Assemble(secs)
    requires Container.ParseToc(KNOWN, r.bytes) == Ok(r.sect)
    ensures r.SectionOf(secs[i].tag) == Ok(secs[i].data)
  {
    Container.RoundTrip(KNOWN, secs, i);
    SectionAt(r, secs[i].tag, secs[i].data);
  }

  lemma {:induction false} SectionAt(r: ShardReader, tag: Tag, data: seq<byte>)
    requires tag in r.sect
    requires var l := r.sect[tag]; l.off + l.sz <= |r.bytes| && r.bytes[l.off..l.off + l.sz] == data
    ensures r.SectionOf(tag) == Ok(data)
  {
  }

  lemma {:induction false} ShardFits(st: Stamp, files: seq<File>, log2: nat, t: seq<RobinHood.Slot>, lists: seq<byte>)
    requires |Container.Assemble(Sections(st.time, st.id, st.base, files, log2, RobinHood.TableBytes(t), lists))| < U32
    requires |t| == if log2 == 0 then 0 else Bits.Pow2(log2)
    ensures |files| < U32 && log2 < 64
    ensures forall q :: q in Paths(files) ==> |q| < U32
    ensures |Corpus(files)| < U32
  {
    var secs := Sections(st.time, st.id, st.base, files, log2, RobinHood.TableBytes(t), lists);
    Container.PartsShorter(secs, 1);
    Container.PartsShorter(secs, 4);
    Container.PartsShorter(secs, 5);
    PathCountFits(Paths(files));
    forall q | q in Paths(files) ensures |q| < U32 { PathFits(Paths(files), q); }
    if t != [] { Bits.SmallExponent(log2); }
  }

  lemma {:induction false} HeaderExact(bytes: seq<byte>, sect: Container.Directory, st: Stamp, docs: nat, log2: nat)
    requires Stampable(st) && docs < U32 && log2 < 64 && |bytes| < U32
    requires META_DATA in sect
    requires var l := sect[META_DATA];
             l.off + l.sz <= |bytes| && bytes[l.off..l.off + l.sz] == MetaBytes(st.time, st.id, st.base, docs, log2)
    ensures Header(bytes, sect) == Ok(ShardReader(bytes, st.time, st.id, docs, st.base, log2, sect))
  {
    MetaBytesRead(st.time, st.id, st.base, docs, log2);
  }

  lemma {:induction false} HeaderFound(secs: seq<Container.Section>, st: Stamp, docs: nat, log2: nat)
    requires Container.DistinctTags(Container.Locs(secs)) && |Container.Assemble(secs)| < U32
    requires |secs| == 7 && secs[0] == Container.Section(META_DATA, MetaBytes(st.time, st.id, st.base, docs, log2))
    requires META_DATA in KNOWN && Stampable(st) && docs < U32 && log2 < 64
    ensures var bytes := Container.Assemble(secs); var sect := Container.ParseToc(KNOWN, bytes);
            sect.Ok? && Open(bytes) == Ok(ShardReader(bytes, st.time, st.id, docs, st.base, log2, sect.value))
  {
    var bytes := Container.Assemble(secs);
    Container.RoundTrip(KNOWN, secs, 0);
    HeaderExact(bytes, Container.ParseToc(KNOWN, bytes).value, st, docs, log2);
  }

  lemma {:induction false} AllSeen(secs: seq<Container.Section>, r: ShardReader)
    requires Container.DistinctTags(Container.Locs(secs)) && |Container.Assemble(secs)| < U32
    requires forall i :: 0 <= i < |secs| ==> secs[i].tag in KNOWN
    requires r.bytes == Container.Assemble(secs)
    requires Container.ParseToc(KNOWN, r.bytes) == Ok(r.sect)
    ensures forall i :: 0 <= i < |secs| ==> r.SectionOf(secs[i].tag) == Ok(secs[i].data)
  {
    forall i | 0 <= i < |secs| ensures r.SectionOf(secs[i].tag) == Ok(secs[i].data) { SectionSeen(secs, i, r); }
  }

  lemma {:induction false} TableLength(t: seq<RobinHood.Slot>, h: nat -> nat, lists: seq<byte>, files: seq<File>,
      log2: nat)
    requires Indexed(t, h, lists, files, log2)
    ensures |t| == if log2 == 0 then 0 else Bits.Pow2(log2)
  {
    var m :| IndexedBy(t, h, lists, files, log2, m);
  }

  lemma {:induction false} OpenSections(bytes: seq<byte>, st: Stamp, files: seq<File>, log2: nat, table: seq<byte>,
      lists: seq<byte>, secs: seq<Container.Section>)
    requires secs == Sections(st.time, st.id, st.base, files, log2, table, lists)
    requires bytes == Container.Assemble(secs) && |bytes| < U32
    requires Stampable(st) && |files| < U32 && log2 < 64
    ensures Open(bytes).Ok?
    ensures Reads(Open(bytes).value, st, files, table, lists, if log2 == 0 then 0 else Bits.Pow2(log2))
  {
    SectionsDistinct(secs);
    HeaderFound(secs, st, |files|, log2);
    var r := Open(bytes).value;
    AllSeen(secs, r);
    ReadsAll(r, st, files, log2, table, lists, if log2 == 0 then 0 else Bits.Pow2(log2));
  }

  /** Opening a finished shard succeeds and sees every section as it was written. */
  lemma {:induction false} OpenExact(bytes: seq<byte>, h: nat -> nat, st: Stamp, files: seq<File>, log2: nat,
      t: seq<RobinHood.Slot>, lists: seq<byte>)
    requires Holds(bytes, h, st, files, log2, t, lists)
    ensures Open(bytes).Ok? && Reads(Open(bytes).value, st, files, RobinHood.TableBytes(t), lists, |t|)
  {
    TableLength(t, h, lists, files, log2);
    ShardFits(st, files, log2, t, lists);
    OpenSections(bytes, st, files, log2, RobinHood.TableBytes(t), lists,
                 Sections(st.time, st.id, st.base, files, log2, RobinHood.TableBytes(t), lists));
  }

  lemma {:induction false} ReadsAll(r: ShardReader, st: Stamp, files: seq<File>, log2: nat, table: seq<byte>,
      lists: seq<byte>, slots: nat)
    requires var secs := Sections(st.time, st.id, st.base, files, log2, table, lists);
             forall i :: 0 <= i < |secs| ==> r.SectionOf(secs[i].tag) == Ok(secs[i].data)
    requires r.buildTime == st.time && r.shardId == st.id && r.baseDocid == st.base
    requires r.numDocs == |files| && r.Slots() == slots
    ensures Reads(r, st, files, table, lists, slots)
  {
    ByName(Sections(st.time, st.id, st.base, files, log2, table, lists), r);
  }

  lemma {:induction false} ByName(secs: seq<Container.Section>, r: ShardReader)
    requires |secs| == 7 && forall i :: 0 <= i < |secs| ==> r.SectionOf(secs[i].tag) == Ok(secs[i].data)
    requires secs[1].tag == FILE_NAMES && secs[2].tag == FILE_META && secs[3].tag == CONTENT_OFFSETS
    requires secs[4].tag == CONTENT_CORPUS && secs[5].tag == CT_HASH && secs[6].tag == CT_POSTINGS
    ensures r.SectionOf(FILE_NAMES) == Ok(secs[1].data) && r.SectionOf(FILE_META) == Ok(secs[2].data)
    ensures r.SectionOf(CONTENT_OFFSETS) == Ok(secs[3].data) && r.SectionOf(CONTENT_CORPUS) == Ok(secs[4].data)
    ensures r.SectionOf(CT_HASH) == Ok(secs[5].data) && r.SectionOf(CT_POSTINGS) == Ok(secs[6].data)
  {
  }

  // ---------------------------------------------------------------- what a shard answers

  lemma {:induction false} OffsetAt(os: seq<(nat, nat)>, d: nat)
    requires d < |os|
    ensures OffsetRecords(os)[OFFSET_LEN * d..OFFSET_LEN * d + OFFSET_LEN] == OffsetRecord(os[d])
  {
    if d < |os| - 1 {
      var front := os[..|os| - 1];
      OffsetAt(front, d);
      SubSlice(OffsetRecords(os), 0, OffsetRecords(front), OFFSET_LEN * d, OFFSET_LEN * d + OFFSET_LEN);
    }
  }

  lemma {:induction false} OffsetRead(co: seq<byte>, at: nat, off: nat, len: nat)
    requires at + OFFSET_LEN <= |co| && co[at..at + OFFSET_LEN] == OffsetRecord((off, len))
    requires off < U64 && len < U32
    ensures Read(co, at, 8) == off && Read(co, at + 8, 4) == len
  {
    WidthBounds();
    Halves(co, at, LE64(off), LE32(len));
    ReadLittle(co, at, off, 8);
    ReadLittle(co, at + 8, len, 4);
  }

  lemma {:induction false} ContentInCorpus(files: seq<File>, d: nat)
    requires d < |files|
    ensures var off := |Corpus(files[..d])|; var len := |files[d].content|;
            off + len <= |Corpus(files)| && Corpus(files)[off..off + len] == files[d].content
  {
    var n := |files| - 1;
    if d < n {
      assert files[..n][..d] == files[..d];
      ContentInCorpus(files[..n], d);
      var off := |Corpus(files[..d])|;
      SubSlice(Corpus(files), 0, Corpus(files[..n]), off, off + |files[d].content|);
    }
  }

  /** Document `d` of an open shard has exactly the path, the metadata and the
      content that were added; behind the last document there is an error. */
  lemma {:induction false} DocumentExact(r: ShardReader, st: Stamp, files: seq<File>, table: seq<byte>,
      lists: seq<byte>, slots: nat, d: nat)
    requires Reads(r, st, files, table, lists, slots) && |Corpus(files)| < U32
    requires forall q :: q in Paths(files) ==> |q| < U32
    ensures d < |files| ==>
      r.Path(d) == Ok(files[d].path) && r.Meta(d) == Ok(files[d].meta) && r.Content(d) == Ok(files[d].content)
    ensures d >= |files| ==> r.Path(d).Err? && r.Meta(d).Err? && r.Content(d).Err?
  {
    assert PathRecords(Paths(files))[0..] == PathRecords(Paths(files));
    ExtractExact(PathRecords(Paths(files)), 0, Paths(files), d);
    MetaSeen(r, files, d);
    ContentSeen(r, files, d);
  }

  lemma {:induction false} MetaSeen(r: ShardReader, files: seq<File>, d: nat)
    requires r.SectionOf(FILE_META) == Ok(MetaRecords(Metas(files)))
    ensures if d < |files| then r.Meta(d) == Ok(files[d].meta) else r.Meta(d).Err?
  {
    if d < |files| {
      var fm := MetaRecords(Metas(files));
      assert fm[0..|fm|] == fm;
      MetaExact(fm, 0, Metas(files), d);
    }
  }

  lemma {:induction false} ContentRead(r: ShardReader, co: seq<byte>, corpus: seq<byte>, d: nat, off: nat, len: nat)
    requires r.SectionOf(CONTENT_OFFSETS) == Ok(co) && r.SectionOf(CONTENT_CORPUS) == Ok(corpus)
    requires OFFSET_LEN * d + OFFSET_LEN <= |co| && off + len <= |corpus|
    requires Read(co, OFFSET_LEN * d, 8) == off && Read(co, OFFSET_LEN * d + 8, 4) == len
    ensures r.Content(d) == Ok(corpus[off..off + len])
  {
  }

  lemma {:induction false} ContentSeen(r: ShardReader, files: seq<File>, d: nat)
    requires r.SectionOf(CONTENT_OFFSETS) == Ok(OffsetRecords(Offsets(files)))
    requires r.SectionOf(CONTENT_CORPUS) == Ok(Corpus(files)) && |Corpus(files)| < U32
    ensures if d < |files| then r.Content(d) == Ok(files[d].content) else r.Content(d).Err?
  {
    if d < |files| {
      var os, corpus := Offsets(files), Corpus(files);
      var off, len := |Corpus(files[..d])|, |files[d].content|;
      assert off + len <= |corpus| && corpus[off..off + len] == files[d].content by { ContentInCorpus(files, d); }
      OffsetSeen(OffsetRecords(os), os, d, off, len);
      ContentRead(r, OffsetRecords(os), corpus, d, off, len);
    }
  }

  lemma {:induction false} OffsetSeen(co: seq<byte>, os: seq<(nat, nat)>, d: nat, off: nat, len: nat)
    requires co == OffsetRecords(os) && d < |os| && os[d] == (off, len) && off < U64 && len < U32
    ensures OFFSET_LEN * d + OFFSET_LEN <= |co|
    ensures Read(co, OFFSET_LEN * d, 8) == off && Read(co, OFFSET_LEN * d + 8, 4) == len
  {
    OffsetAt(os, d);
    OffsetRead(co, OFFSET_LEN * d, off, len);
  }

  /** The posting of a trigram is the ascending list of exactly the documents whose
      folded content has it, and there is none when no document has it. */
  lemma {:induction false} PostingSeen(r: ShardReader, h: nat -> nat, st: Stamp, files: seq<File>, log2: nat,
      t: seq<RobinHood.Slot>, lists: seq<byte>, trig: nat)
    requires Indexed(t, h, lists, files, log2)
    requires Reads(r, st, files, RobinHood.TableBytes(t), lists, |t|)
    ensures var post := PostingOf(Folded(files), trig);
            r.Posting(h, trig) == Ok(if post == [] then None else Some(post))
  {
    var m :| IndexedBy(t, h, lists, files, log2, m);
    assert Entry(m, trig, PostingOf(Folded(files), trig));
    if |t| > 0 {
      Postings.FetchExact(RobinHood.TableBytes(t), t, lists, h, m, trig);
    }
  }

  /** Whether a document's content matches, by its declarative meaning. */
  predicate Hit(content: seq<byte>, needle: seq<byte>, cs: bool) {
    Contains(if cs then content else Fold(content), needle)
  }

  lemma {:induction false} HitContains(content: seq<byte>, original: seq<byte>, cs: bool)
    requires Hit(content, if cs then original else Fold(original), cs)
    ensures Contains(Fold(content), Fold(original))
  {
    if cs { FoldContains(content, original); }
  }

  /** The documents that a literal content query must find. */
  function Hits(files: seq<File>, needle: seq<byte>, cs: bool): nat -> bool {
    (d: nat) => d < |files| && Hit(files[d].content, needle, cs)
  }

  lemma {:induction false} ShardFaithful(r: ShardReader, h: nat -> nat, st: Stamp, files: seq<File>, log2: nat,
      t: seq<RobinHood.Slot>, lists: seq<byte>, q: seq<byte>, cs: bool)
    requires Indexed(t, h, lists, files, log2) && |Corpus(files)| < U32
    requires forall p :: p in Paths(files) ==> |p| < U32
    requires Reads(r, st, files, RobinHood.TableBytes(t), lists, |t|)
    ensures var needle := if cs then q else Fold(q);
            Candidates.Faithful(r.Source(h), Folded(files), Hits(files, needle, cs), Fold(q), needle, cs)
    ensures Candidates.AllAscending(r.Source(h))
  {
    var needle := if cs then q else Fold(q);
    var texts := Folded(files);
    forall trig: nat
      ensures Candidates.PostingFor(r.Posting(h, trig), texts, trig)
      ensures r.Posting(h, trig).value.Some? ==> Ascending(r.Posting(h, trig).value.value)
    {
      PostingSeen(r, h, st, files, log2, t, lists, trig);
      PostingExact(texts, trig);
      if PostingOf(texts, trig) == [] {
        forall d | 0 <= d < |texts| ensures !HasTrigram(texts[d], trig) {
          assert d !in PostingOf(texts, trig);
        }
      }
    }
    forall d: nat | d < |texts|
      ensures r.Verify(d, needle, cs) == Ok(Hits(files, needle, cs)(d))
      ensures Hits(files, needle, cs)(d) ==> Contains(texts[d], Fold(q))
    {
      DocumentExact(r, st, files, RobinHood.TableBytes(t), lists, |t|, d);
      if Hit(files[d].content, needle, cs) { HitContains(files[d].content, q, cs); }
      if needle == [] { assert Occurs(if cs then files[d].content else Fold(files[d].content), needle, 0); }
    }
  }

  /** Searching a finished shard is scanning the files it was built from: the first
      `limit` documents, in the order they were added, that contain the query. */
  lemma {:induction false} SearchIsScan(bytes: seq<byte>, h: nat -> nat, st: Stamp, files: seq<File>, q: seq<byte>,
      cs: bool, limit: Option<nat>)
    requires IsShard(bytes, h, st, files)
    ensures Open(bytes).Ok?
    ensures var needle := if cs then q else Fold(q);
            Candidates.Candidates(Open(bytes).value.Source(h), Fold(q), q, cs, limit)
              == Ok(Candidates.Scan(|files|, Hits(files, needle, cs), limit))
  {
    var log2: nat, t, lists :| Holds(bytes, h, st, files, log2, t, lists);
    OpenExact(bytes, h, st, files, log2, t, lists);
    TableLength(t, h, lists, files, log2);
    ShardFits(st, files, log2, t, lists);
    var r := Open(bytes).value;
    ShardFaithful(r, h, st, files, log2, t, lists, q, cs);
    var needle := if cs then q else Fold(q);
    Candidates.CandidatesAreScan(r.Source(h), Folded(files), Hits(files, needle, cs), Fold(q), q, cs, limit);
  }

  /** Everything a finished shard answers, from its bytes alone. */
  lemma {:induction false} RoundTrip(bytes: seq<byte>, h: nat -> nat, st: Stamp, files: seq<File>)
    requires IsShard(bytes, h, st, files)
    ensures Open(bytes).Ok?
    ensures var r := Open(bytes).value;
            && r.numDocs == |files| && r.shardId == st.id && r.baseDocid == st.base && r.buildTime == st.time
            && (forall d: nat :: d < |files| ==>
                  && r.Path(d) == Ok(files[d].path) && r.Meta(d) == Ok(files[d].meta)
                  && r.Content(d) == Ok(files[d].content))
            && (forall d: nat :: d >= |files| ==> r.Path(d).Err? && r.Meta(d).Err? && r.Content(d).Err?)
            && (forall trig: nat :: r.Posting(h, trig)
                  == Ok(if PostingOf(Folded(files), trig) == [] then None else Some(PostingOf(Folded(files), trig))))
  {
    var log2: nat, t, lists :| Holds(bytes, h, st, files, log2, t, lists);
    OpenExact(bytes, h, st, files, log2, t, lists);
    TableLength(t, h, lists, files, log2);
    ShardFits(st, files, log2, t, lists);
    var r := Open(bytes).value;
    forall d: nat
      ensures d < |files| ==>
        r.Path(d) == Ok(files[d].path) && r.Meta(d) == Ok(files[d].meta) && r.Content(d) == Ok(files[d].content)
      ensures d >= |files| ==> r.Path(d).Err? && r.Meta(d).Err? && r.Content(d).Err?
    {
      DocumentExact(r, st, files, RobinHood.TableBytes(t), lists, |t|, d);
    }
    forall trig: nat
      ensures r.Posting(h, trig)
           == Ok(if PostingOf(Folded(files), trig) == [] then None else Some(PostingOf(Folded(files), trig)))
    {
      PostingSeen(r, h, st, files, log2, t, lists, trig);
    }
  }
}
