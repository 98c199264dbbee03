/** The filename database `index.dfdb`: builder, file layout, and the reader with
    its block index and one-slot block cache. */
module FileDb {
  import opened Prelude
  import opened Bytes
  import opened Text
  import opened Records
  import opened TrigramIndex
  import Bits
  import Repeated
  import RobinHood
  import Postings
  import Candidates

  datatype Doc = Doc(path: Str, meta: LiteMeta)

  /** The compression library: dictionary training and the two directions. */
  datatype Zstd = Zstd(
    train: seq<seq<byte>> -> seq<byte>,
    encode: (seq<byte>, seq<byte>) -> seq<byte>,
    decode: (seq<byte>, seq<byte>) -> Result<seq<byte>>)

  ghost predicate Lossless(z: Zstd) {
    forall data: seq<byte>, dict: seq<byte> {:trigger z.encode(data, dict)} ::
      z.decode(z.encode(data, dict), dict) == Ok(data)
  }

  const MAGIC: seq<byte> := [0x44, 0x46, 0x44, 0x42]
  const VERSION: nat := 2
  const HEADER_LEN: nat := 64
  const BLOCK_PATHS: nat := 256
  const REF_LEN: nat := 16

  function Paths(docs: seq<Doc>): (r: seq<Str>)
    ensures |r| == |docs|
  {
    seq(|docs|, i requires 0 <= i < |docs| => docs[i].path)
  }

  function Metas(docs: seq<Doc>): (r: seq<LiteMeta>)
    ensures |r| == |docs|
  {
    seq(|docs|, i requires 0 <= i < |docs| => docs[i].meta)
  }

  function Lowered(docs: seq<Doc>): (r: seq<seq<byte>>)
    ensures |r| == |docs|
  {
    seq(|docs|, i requires 0 <= i < |docs| => Fold(docs[i].path))
  }

  // ---------------------------------------------------------------- filename blocks

  type Chunk = seq<Str>

  function Chunks(paths: seq<Str>): (cs: seq<Chunk>)
    ensures forall c :: c in cs ==> 0 < |c| <= BLOCK_PATHS
  {
    if paths == [] then []
    else if |paths| <= BLOCK_PATHS then [paths]
    else [paths[..BLOCK_PATHS]] + Chunks(paths[BLOCK_PATHS..])
  }

  function Flatten(cs: seq<Chunk>): seq<Str> {
    if cs == [] then [] else cs[0] + Flatten(cs[1..])
  }

  lemma {:induction false} ChunksFlatten(paths: seq<Str>)
    ensures Flatten(Chunks(paths)) == paths
  {
    if |paths| > BLOCK_PATHS {
      ChunksFlatten(paths[BLOCK_PATHS..]);
      assert paths[..BLOCK_PATHS] + paths[BLOCK_PATHS..] == paths;
    } else if paths != [] {
      assert [paths][1..] == [];
      assert paths + [] == paths;
    }
  }

  /** Where a compressed block lies, and how many paths it holds. */
  datatype Ref = Ref(off: nat, clen: nat, count: nat)

  function Compressed(z: Zstd, dict: seq<byte>, c: Chunk): seq<byte> { z.encode(PathRecords(c), dict) }

  function Refs(z: Zstd, dict: seq<byte>, cs: seq<Chunk>, off: nat): (r: seq<Ref>)
    ensures |r| == |cs|
  {
    if cs == [] then []
    else
      var comp := Compressed(z, dict, cs[0]);
      [Ref(Cut64(off), Cut32(|comp|), Cut32(|cs[0]|))] + Refs(z, dict, cs[1..], off + |comp|)
  }

  function BlockData(z: Zstd, dict: seq<byte>, cs: seq<Chunk>): seq<byte> {
    if cs == [] then [] else Compressed(z, dict, cs[0]) + BlockData(z, dict, cs[1..])
  }

  function RefBytes(r: Ref): (b: seq<byte>)
    ensures |b| == REF_LEN
  {
    LE64(r.off) + LE32(r.clen) + LE32(r.count)
  }

  function ParseRef(buf: seq<byte>, p: nat): Result<(Ref, nat)> {
    if p + REF_LEN > |buf| then Err(Truncated)
    else Ok((Ref(Read(buf, p, 8), Read(buf, p + 8, 4), Read(buf, p + 12, 4)), p + REF_LEN))
  }

  lemma {:induction false} RefRoundTrip(r: Ref)
    requires r.off < U64 && r.clen < U32 && r.count < U32
    ensures Repeated.Inverse(RefBytes, ParseRef, r)
  {
    forall buf: seq<byte>, p: nat | p + |RefBytes(r)| <= |buf| && buf[p..p + |RefBytes(r)|] == RefBytes(r)
      ensures ParseRef(buf, p) == Ok((r, p + |RefBytes(r)|))
    {
      WidthBounds();
      Halves(buf, p, LE64(r.off) + LE32(r.clen), LE32(r.count));
      Halves(buf, p, LE64(r.off), LE32(r.clen));
      ReadLittle(buf, p, r.off, 8);
      ReadLittle(buf, p + 8, r.clen, 4);
      ReadLittle(buf, p + 12, r.count, 4);
    }
  }

  /** First docid of each block, by the running sum of the counts. */
  function Starts(refs: seq<Ref>, start: nat): (s: seq<nat>)
    ensures |s| == |refs|
  {
    if refs == [] then [] else [start] + Starts(refs[1..], start + refs[0].count)
  }

  /** How many leading elements are at most `d`. */
  function PartitionPoint(starts: seq<nat>, d: nat): (p: nat)
    ensures p <= |starts|
  {
    if starts == [] || starts[0] > d then 0 else 1 + PartitionPoint(starts[1..], d)
  }

  lemma {:induction false} PartitionPointExact(starts: seq<nat>, d: nat, p: nat)
    requires Sorted(starts) && p <= |starts|
    requires forall i :: 0 <= i < p ==> starts[i] <= d
    requires p < |starts| ==> starts[p] > d
    ensures PartitionPoint(starts, d) == p
  {
    if p > 0 {
      PartitionPointExact(starts[1..], d, p - 1);
    }
  }

  /** The library's `partition_point` on a sorted list: a binary search. */
  method SearchPartition(starts: seq<nat>, d: nat) returns (p: nat)
    requires Sorted(starts)
    ensures p == PartitionPoint(starts, d)
  {
    var lo: nat, hi: nat := 0, |starts|;
    while lo < hi
      invariant lo <= hi <= |starts|
      invariant forall i :: 0 <= i < lo ==> starts[i] <= d
      invariant hi < |starts| ==> starts[hi] > d
    {
      var mid := lo + (hi - lo) / 2;
      if starts[mid] <= d { lo := mid + 1; } else { hi := mid; }
    }
    PartitionPointExact(starts, d, lo);
    return lo;
  }

  lemma {:induction false} StartsSorted(refs: seq<Ref>, start: nat)
    ensures Sorted(Starts(refs, start))
    ensures forall i :: 0 <= i < |refs| ==> Starts(refs, start)[i] >= start
  {
    if refs != [] {
      StartsSorted(refs[1..], start + refs[0].count);
    }
  }

  // ---------------------------------------------------------------- reader

  /** What `open` keeps of a database file. */
  datatype Image = Image(
    src: seq<byte>, numDocs: nat, buildTime: nat, metaOff: nat, tryOff: nat, log2: nat,
    dict: seq<byte>, blocks: seq<Ref>)
  {
    function Slots(): nat { if log2 == 0 then 0 else Bits.Pow2(log2) }

    function BlockStart(): (s: seq<nat>)
      ensures |s| == |blocks|
    {
      Starts(blocks, 0)
    }

    /** The decompressed filename block `i`. */
    function BlockBytes(z: Zstd, i: nat): Result<seq<byte>>
      requires i < |blocks|
    {
      if blocks[i].off + blocks[i].clen > |src| then Err(Truncated)
      else z.decode(src[blocks[i].off..blocks[i].off + blocks[i].clen], dict)
    }

    /** The block that holds document `d` and its position there. */
    function Find(d: nat): (r: Result<(nat, nat)>)
      ensures r.Ok? ==> r.value.0 < |blocks|
    {
      if blocks == [] then Err(OutOfRange)
      else
        var p := PartitionPoint(BlockStart(), d);
        var i := if p == 0 then 0 else p - 1;
        var local := if d < BlockStart()[i] then 0 else d - BlockStart()[i];
        if local >= blocks[i].count then Err(OutOfRange) else Ok((i, local))
    }

    function DocPath(z: Zstd, d: nat): Result<Str> {
      match Find(d)
      case Err(e) => Err(e)
      case Ok((i, local)) =>
        match BlockBytes(z, i)
        case Err(e) => Err(e)
        case Ok(block) => ExtractPath(block, 0, local)
    }

    function DocMeta(d: nat): Result<LiteMeta> {
      if d >= numDocs then Err(OutOfRange)
      else
        var off := metaOff + META_LEN * d;
        if off + META_LEN > |src| then Err(Truncated) else Ok(ReadMeta(src, off))
    }

    function Posting(h: nat -> nat, trig: nat): Result<Option<seq<nat>>> {
      Postings.Fetch(if tryOff <= |src| then src[tryOff..] else [], src, Slots(), h, trig)
    }

    function Verify(z: Zstd, d: nat, needle: seq<byte>, cs: bool): Result<bool> {
      if needle == [] then Ok(true)
      else
        match DocPath(z, d)
        case Err(e) => Err(e)
        case Ok(p) => Ok(Contains(if cs then p else Fold(p), needle))
    }

    function Source(z: Zstd, h: nat -> nat): Candidates.Source {
      Candidates.Source(numDocs, (t: nat) => Posting(h, t),
                        (d: nat, needle: seq<byte>, cs: bool) => Verify(z, d, needle, cs))
    }
  }

  function Open(src: seq<byte>): Result<Image> {
    if |src| < HEADER_LEN || src[..4] != MAGIC then Err(DbFormat)
    else if Read(src, 4, 4) != VERSION then Err(DbFormat)
    else
      var docsOff, log2 := Read(src, 20, 8), Read(src, 60, 4);
      if log2 >= 64 then Err(Panic)
      else if docsOff + 4 > |src| then Err(Truncated)
      else
        var dictLen := Read(src, docsOff, 4);
        var idx := docsOff + 4 + dictLen;
        if idx + 4 > |src| then Err(Truncated)
        else
          match Repeated.ParseAll(ParseRef, src, idx + 4, Read(src, idx, 4))
          case Err(e) => Err(e)
          case Ok((blocks, _)) =>
            Ok(Image(src, Read(src, 8, 4), Read(src, 12, 8), Read(src, 28, 8), Read(src, 44, 8), log2,
                     src[docsOff + 4..idx], blocks))
  }

  /** The database reader: an open file with the block decompressed last. */
  class DbReader {
    const img: Image
    const z: Zstd
    var cachedBlock: Option<(nat, seq<byte>)>

    /** The cache holds nothing, or a block of this file as it decompresses. */
    ghost predicate Valid()
      reads this
    {
      cachedBlock.Some? ==>
        cachedBlock.value.0 < |img.blocks| && img.BlockBytes(z, cachedBlock.value.0) == Ok(cachedBlock.value.1)
    }

    constructor (img: Image, z: Zstd)
      ensures Valid() && this.img == img && this.z == z
    {
      this.img, this.z := img, z;
      cachedBlock := None;
    }

    /** Whatever block is cached, the answer is that of the file. */
    method DocPath(d: nat) returns (r: Result<Str>)
      requires Valid()
      modifies this
      ensures Valid() && r == img.DocPath(z, d)
    {
      if img.blocks == [] { return Err(OutOfRange); }
      StartsSorted(img.blocks, 0);
      var p := SearchPartition(img.BlockStart(), d);
      var i: nat := if p == 0 then 0 else p - 1;
      var start := img.BlockStart()[i];
      var local: nat := if d < start then 0 else d - start;
      if local >= img.blocks[i].count { return Err(OutOfRange); }
      if cachedBlock.Some? && cachedBlock.value.0 == i {
        r := FindPath(cachedBlock.value.1, local);
        return;
      }
      var b := img.blocks[i];
      if b.off + b.clen > |img.src| { return Err(Truncated); }
      var comp := img.src[b.off..b.off + b.clen];
      var block := z.decode(comp, img.dict);
      if block.Err? { return Err(block.error); }
      r := FindPath(block.value, local);
      if r.Err? { return; }
      cachedBlock := Some((i, block.value));
    }
  }

  method OpenDb(src: seq<byte>) returns (r: Result<Image>)
    ensures r == Open(src)
  {
    if |src| < HEADER_LEN || src[..4] != MAGIC { return Err(DbFormat); }
    if Read(src, 4, 4) != VERSION { return Err(DbFormat); }
    var docsOff, log2 := Read(src, 20, 8), Read(src, 60, 4);
    if log2 >= 64 { return Err(Panic); }
    if docsOff + 4 > |src| { return Err(Truncated); }
    var dictLen := Read(src, docsOff, 4);
    var idx := docsOff + 4 + dictLen;
    if idx + 4 > |src| { return Err(Truncated); }
    var blocks := ReadRefs(src, idx + 4, Read(src, idx, 4));
    if blocks.Err? { return Err(blocks.error); }
    return Ok(Image(src, Read(src, 8, 4), Read(src, 12, 8), Read(src, 28, 8), Read(src, 44, 8), log2,
                    src[docsOff + 4..idx], blocks.value.0));
  }

  method ReadRefs(src: seq<byte>, from: nat, count: nat) returns (r: Result<(seq<Ref>, nat)>)
    ensures r == Repeated.ParseAll(ParseRef, src, from, count)
  {
    var p: nat := from;
    var blocks: seq<Ref> := [];
    ghost var all := Repeated.ParseAll(ParseRef, src, from, count);
    Repeated.Start(all);
    for k := 0 to count
      invariant all == Repeated.Behind(blocks, Repeated.ParseAll(ParseRef, src, p, count - k))
    {
      Repeated.Step(ParseRef, src, p, count - k, blocks);
      var ref := ParseRef(src, p);
      if ref.Err? { return Err(ref.error); }
      blocks := blocks + [ref.value.0];
      p := ref.value.1;
    }
    assert blocks + [] == blocks;
    return Ok((blocks, p));
  }

  // ---------------------------------------------------------------- file layout

  function HeaderBytes(docs: nat, time: nat, metaOff: nat, tryOff: nat, postOff: nat, log2: nat): (b: seq<byte>)
    ensures |b| == HEADER_LEN
  {
    MAGIC + LE32(VERSION) + LE32(docs) + LE64(time)
      + (LE64(HEADER_LEN) + LE64(metaOff) + LE64(0) + LE64(tryOff))
      + (LE64(postOff) + LE32(log2))
  }

  function Front(dict: seq<byte>, refs: seq<Ref>): seq<byte> {
    LE32(Cut32(|dict|)) + dict + LE32(Cut32(|refs|)) + Repeated.EncodeAll(RefBytes, refs)
  }

  /** Where the blocks start: behind the dictionary and the block index. */
  function BlocksBase(dict: seq<byte>, blocks: nat): nat {
    HEADER_LEN + (4 + |dict| + 4 + blocks * REF_LEN)
  }

  function DocsSection(z: Zstd, paths: seq<Str>): seq<byte> {
    var dict, cs := z.train(paths), Chunks(paths);
    Front(dict, Refs(z, dict, cs, BlocksBase(dict, |cs|))) + BlockData(z, dict, cs)
  }

  /** The sections behind a header that gives their offsets. */
  function FileOf(docs: nat, time: nat, log2: nat, section: seq<byte>, metas: seq<byte>, table: seq<byte>,
      lists: seq<byte>): seq<byte> {
    var metaOff := HEADER_LEN + |section|;
    var tryOff := metaOff + |metas|;
    HeaderBytes(Cut32(docs), time, Cut64(metaOff), Cut64(tryOff), Cut64(tryOff + |table|), log2)
      + section + metas + table + lists
  }

  function FileBytes(z: Zstd, time: nat, docs: seq<Doc>, log2: nat, table: seq<byte>, lists: seq<byte>): seq<byte> {
    FileOf(|docs|, time, log2, DocsSection(z, Paths(docs)), MetaRecords(Metas(docs)), table, lists)
  }

  /** Sizes that the 32-bit fields of the format can hold. */
  ghost predicate Fits(z: Zstd, docs: seq<Doc>) {
    && |docs| <= Postings.MAX_DOCS
    && |z.train(Paths(docs))| < U32
    && (forall q :: q in Paths(docs) ==> |q| < U32)
    && (forall c :: c in Chunks(Paths(docs)) ==> |Compressed(z, z.train(Paths(docs)), c)| < U32)
    && (forall t: nat {:trigger PostingOf(Lowered(docs), t)} ::
          var post := PostingOf(Lowered(docs), t);
          Postings.Codable(post, 0) ==> |Postings.Encoded(post)| < U32)
  }

  ghost predicate IndexedBy(t: seq<RobinHood.Slot>, h: nat -> nat, lists: seq<byte>, base: nat, docs: seq<Doc>,
      log2: nat, m: Index) {
    && Indexes(m, Lowered(docs)) && Postings.Serves(t, h, lists, base, m)
    && |t| == (if m == map[] then 0 else Bits.Pow2(log2)) && (log2 == 0 <==> m == map[])
  }

  /** `bytes` is laid out as the finished database of `docs`. */
  ghost predicate IsDb(bytes: seq<byte>, h: nat -> nat, z: Zstd, time: nat, docs: seq<Doc>) {
    exists log2: nat, t, lists, base: nat, m :: Holds(bytes, h, z, time, docs, log2, t, lists, base, m)
  }

  ghost predicate Holds(bytes: seq<byte>, h: nat -> nat, z: Zstd, time: nat, docs: seq<Doc>, log2: nat,
      t: seq<RobinHood.Slot>, lists: seq<byte>, base: nat, m: Index) {
    && time < U64 && |bytes| < U64 && base + |lists| == |bytes|
    && bytes == FileBytes(z, time, docs, log2, RobinHood.TableBytes(t), lists)
    && IndexedBy(t, h, lists, base, docs, log2, m)
  }

  // ---------------------------------------------------------------- builder

  class DbBuilder {
    var paths: seq<Str>
    var meta: seq<LiteMeta>
    var tryMap: Index
    var buildTime: nat
    ghost var docs: seq<Doc>

    ghost predicate Valid()
      reads this
    {
      && |docs| <= Postings.MAX_DOCS && buildTime < U64
      && paths == Paths(docs) && meta == Metas(docs) && Indexes(tryMap, Lowered(docs))
    }

    constructor ()
      ensures Valid() && docs == [] && buildTime == 0
    {
      paths, meta, tryMap, buildTime := [], [], map[], 0;
      docs := [];
      new;
      forall t: nat ensures Entry(map[], t, PostingOf(Lowered([]), t)) { assert Lowered([]) == []; }
    }

    method InsertWith(path: Str, isDir: bool, size: i64, mtime: i64) returns (id: nat)
      requires Valid() && |docs| < Postings.MAX_DOCS
      modifies this
      ensures Valid() && id == |old(docs)| && buildTime == old(buildTime)
      ensures docs == old(docs) + [Doc(path, LiteMeta(isDir, size, mtime))]
    {
      id := |paths|;
      paths := paths + [path];
      meta := meta + [LiteMeta(isDir, size, mtime)];
      ghost var d := Doc(path, LiteMeta(isDir, size, mtime));
      tryMap := AddText(tryMap, Lowered(docs), id, Fold(path));
      assert Lowered(docs + [d]) == Lowered(docs) + [Fold(path)];
      docs := docs + [d];
    }

    method SetBuildTime(secs: nat)
      requires Valid() && secs < U64
      modifies this
      ensures Valid() && buildTime == secs && docs == old(docs)
    {
      buildTime := secs;
    }

    /** The database bytes; they are a database of the inserted documents whenever
        every length fits its field. */
    method Finish(h: nat -> nat, z: Zstd) returns (out: seq<byte>)
      requires Valid()
      ensures |out| < U64 && Fits(z, docs) ==> IsDb(out, h, z, buildTime, docs)
    {
      var section := WriteDocs(z, paths);
      var metaOff := HEADER_LEN + |section|;
      var metaSec := WriteMetas(meta);
      var tryOff := metaOff + |metaSec|;
      Postings.StoringTexts(tryMap, Lowered(docs));
      var log2, slots := Postings.TableSize(tryMap);
      var postOff := tryOff + RobinHood.SLOT_LEN * slots;
      var table, lists;
      ghost var t;
      table, lists, t := Postings.WriteIndex(h, tryMap, slots, log2, postOff);
      out := WriteFile(|paths|, buildTime, log2, section, metaSec, table, lists);
      if |out| < U64 && Fits(z, docs) {
        ListsOfDocs(z, docs, tryMap);
        FinishedDb(out, h, z, buildTime, docs, log2, t, lists, tryMap, postOff);
      }
    }
  }

  method WriteFile(docs: nat, time: nat, log2: nat, section: seq<byte>, metas: seq<byte>, table: seq<byte>,
      lists: seq<byte>)
    returns (out: seq<byte>)
    ensures out == FileOf(docs, time, log2, section, metas, table, lists)
    ensures |out| == HEADER_LEN + |section| + |metas| + |table| + |lists|
  {
    var metaOff := HEADER_LEN + |section|;
    var tryOff := metaOff + |metas|;
    var postOff := tryOff + |table|;
    out := HeaderBytes(Cut32(docs), time, Cut64(metaOff), Cut64(tryOff), Cut64(postOff), log2);
    out := out + section;
    out := out + metas;
    out := out + table;
    out := out + lists;
  }

  lemma {:induction false} FinishedDb(out: seq<byte>, h: nat -> nat, z: Zstd, time: nat, docs: seq<Doc>, log2: nat,
      t: seq<RobinHood.Slot>, lists: seq<byte>, m: Index, postOff: nat)
    requires time < U64 && |out| < U64
    requires out == FileBytes(z, time, docs, log2, RobinHood.TableBytes(t), lists)
    requires Indexes(m, Lowered(docs)) && Postings.Serves(t, h, lists, postOff, m) && postOff + |lists| == |out|
    requires |t| == (if m == map[] then 0 else Bits.Pow2(log2)) && (log2 == 0 <==> m == map[])
    ensures IsDb(out, h, z, time, docs)
  {
    assert Holds(out, h, z, time, docs, log2, t, lists, postOff, m);
  }

  lemma {:induction false} ListsOfDocs(z: Zstd, docs: seq<Doc>, m: Index)
    requires Fits(z, docs) && Indexes(m, Lowered(docs))
    ensures Postings.ListsFit(m)
  {
    Postings.StoringTexts(m, Lowered(docs));
    forall t | t in m ensures |Postings.Encoded(m[t])| < U32 {
      assert Entry(m, t, PostingOf(Lowered(docs), t));
    }
  }

  /** The dictionary, the block index and the compressed blocks of 256 paths. */
  method WriteDocs(z: Zstd, paths: seq<Str>) returns (section: seq<byte>)
    ensures section == DocsSection(z, paths)
  {
    var dict := z.train(paths);
    var chunks := Chunks(paths);
    var index, blocks := WriteBlocks(z, dict, chunks, BlocksBase(dict, |chunks|));
    section := LE32(Cut32(|dict|)) + dict + LE32(Cut32(|chunks|));
    section := AppendRefs(section, index);
    section := section + blocks;
  }

  method WriteBlocks(z: Zstd, dict: seq<byte>, chunks: seq<Chunk>, blocksBase: nat)
    returns (index: seq<Ref>, blocks: seq<byte>)
    ensures index == Refs(z, dict, chunks, blocksBase) && blocks == BlockData(z, dict, chunks)
  {
    blocks, index := [], [];
    assert chunks[..0] == [];
    for i := 0 to |chunks|
      invariant index == Refs(z, dict, chunks[..i], blocksBase)
      invariant blocks == BlockData(z, dict, chunks[..i])
    {
      assert chunks[..i + 1] == chunks[..i] + [chunks[i]];
      BlocksAppend(z, dict, chunks[..i], chunks[i], blocksBase);
      var blk := WritePaths(chunks[i]);
      var comp := z.encode(blk, dict);
      index := index + [Ref(Cut64(blocksBase + |blocks|), Cut32(|comp|), Cut32(|chunks[i]|))];
      blocks := blocks + comp;
    }
    assert chunks[..|chunks|] == chunks;
  }

  lemma {:induction false} BlocksAppend(z: Zstd, dict: seq<byte>, cs: seq<Chunk>, c: Chunk, off: nat)
    ensures BlockData(z, dict, cs + [c]) == BlockData(z, dict, cs) + Compressed(z, dict, c)
    ensures Refs(z, dict, cs + [c], off) == Refs(z, dict, cs, off)
         + [Ref(Cut64(off + |BlockData(z, dict, cs)|), Cut32(|Compressed(z, dict, c)|), Cut32(|c|))]
  {
    if cs == [] {
      assert [] + [c] == [c] && [c][1..] == [];
    } else {
      assert (cs + [c])[1..] == cs[1..] + [c];
      BlocksAppend(z, dict, cs[1..], c, off + |Compressed(z, dict, cs[0])|);
    }
  }

  method AppendRefs(head: seq<byte>, refs: seq<Ref>) returns (out: seq<byte>)
    ensures out == head + Repeated.EncodeAll(RefBytes, refs)
  {
    out := head;
    for i := 0 to |refs|
      invariant out == head + Repeated.EncodeAll(RefBytes, refs[..i])
    {
      assert refs[..i + 1] == refs[..i] + [refs[i]];
      Repeated.EncodeAllAppend(RefBytes, refs[..i], refs[i]);
      out := out + RefBytes(refs[i]);
    }
    assert refs[..|refs|] == refs;
  }

  // ---------------------------------------------------------------- opening a finished file

  lemma {:induction false} HeaderRead(bytes: seq<byte>, docs: nat, time: nat, metaOff: nat, tryOff: nat, postOff: nat,
      log2: nat)
    requires docs < U32 && time < U64 && metaOff < U64 && tryOff < U64 && log2 < U32
    requires HEADER_LEN <= |bytes| && bytes[..HEADER_LEN] == HeaderBytes(docs, time, metaOff, tryOff, postOff, log2)
    ensures bytes[..4] == MAGIC && Read(bytes, 4, 4) == VERSION && Read(bytes, 8, 4) == docs
    ensures Read(bytes, 12, 8) == time && Read(bytes, 20, 8) == HEADER_LEN && Read(bytes, 28, 8) == metaOff
    ensures Read(bytes, 44, 8) == tryOff && Read(bytes, 60, 4) == log2
  {
    WidthBounds();
    var a := MAGIC + LE32(VERSION) + LE32(docs) + LE64(time);
    var b := LE64(HEADER_LEN) + LE64(metaOff) + LE64(0) + LE64(tryOff);
    var c := LE64(postOff) + LE32(log2);
    assert HeaderBytes(docs, time, metaOff, tryOff, postOff, log2) == a + b + c;
    assert bytes[0..HEADER_LEN] == a + b + c;
    Halves(bytes, 0, a + b, c);
    Halves(bytes, 0, a, b);
    HeaderFirst(bytes, docs, time);
    HeaderOffsets(bytes, metaOff, tryOff);
    Halves(bytes, 52, LE64(postOff), LE32(log2));
    ReadLittle(bytes, 60, log2, 4);
  }

  lemma {:induction false} HeaderFirst(bytes: seq<byte>, docs: nat, time: nat)
    requires docs < U32 && time < U64 && 20 <= |bytes|
    requires bytes[0..20] == MAGIC + LE32(VERSION) + LE32(docs) + LE64(time)
    ensures bytes[..4] == MAGIC && Read(bytes, 4, 4) == VERSION
    ensures Read(bytes, 8, 4) == docs && Read(bytes, 12, 8) == time
  {
    WidthBounds();
    Quarters(bytes, 0, MAGIC, LE32(VERSION), LE32(docs), LE64(time));
    ReadLittle(bytes, 4, VERSION, 4);
    ReadLittle(bytes, 8, docs, 4);
    ReadLittle(bytes, 12, time, 8);
  }

  lemma {:induction false} HeaderOffsets(bytes: seq<byte>, metaOff: nat, tryOff: nat)
    requires metaOff < U64 && tryOff < U64 && 52 <= |bytes|
    requires bytes[20..52] == LE64(HEADER_LEN) + LE64(metaOff) + LE64(0) + LE64(tryOff)
    ensures Read(bytes, 20, 8) == HEADER_LEN && Read(bytes, 28, 8) == metaOff && Read(bytes, 44, 8) == tryOff
  {
    WidthBounds();
    Quarters(bytes, 20, LE64(HEADER_LEN), LE64(metaOff), LE64(0), LE64(tryOff));
    ReadLittle(bytes, 20, HEADER_LEN, 8);
    ReadLittle(bytes, 28, metaOff, 8);
    ReadLittle(bytes, 44, tryOff, 8);
  }

  /** Where the sections of a file lie. */
  lemma {:induction false} FileParts(bytes: seq<byte>, header: seq<byte>, section: seq<byte>, metas: seq<byte>,
      table: seq<byte>, lists: seq<byte>)
    requires bytes == header + section + metas + table + lists
    ensures var s := |header|; var m := s + |section|; var t := m + |metas|; var l := t + |table|;
            && bytes[..s] == header && bytes[s..m] == section && bytes[m..t] == metas
            && table <= bytes[t..] && l + |lists| == |bytes| && bytes[l..] == lists
  {
    var s := |header|; var m := s + |section|; var t := m + |metas|; var l := t + |table|;
    assert bytes[0..l] == header + section + metas + table;
    Quarters(bytes, 0, header, section, metas, table);
    assert bytes[t..][..|table|] == bytes[t..l];
  }

  /** A dictionary and a block index stand at `at`. */
  ghost predicate FrontSeen(bytes: seq<byte>, at: nat, dict: seq<byte>, refs: seq<Ref>) {
    var idx := at + 4 + |dict|;
    && idx + 4 <= |bytes| && Read(bytes, at, 4) == |dict| && bytes[at + 4..idx] == dict
    && Read(bytes, idx, 4) == |refs|
    && Repeated.ParseAll(ParseRef, bytes, idx + 4, |refs|).Ok?
    && Repeated.ParseAll(ParseRef, bytes, idx + 4, |refs|).value.0 == refs
  }

  /** Reading the dictionary and the block index at the start of the section. */
  lemma {:induction false} FrontRead(bytes: seq<byte>, at: nat, dict: seq<byte>, refs: seq<Ref>)
    requires |dict| < U32 && |refs| < U32
    requires forall r :: r in refs ==> r.off < U64 && r.clen < U32 && r.count < U32
    requires at + |Front(dict, refs)| <= |bytes| && bytes[at..at + |Front(dict, refs)|] == Front(dict, refs)
    ensures FrontSeen(bytes, at, dict, refs)
  {
    WidthBounds();
    var idx := at + 4 + |dict|;
    var all := Repeated.EncodeAll(RefBytes, refs);
    Quarters(bytes, at, LE32(|dict|), dict, LE32(|refs|), all);
    ReadLittle(bytes, at, |dict|, 4);
    ReadLittle(bytes, idx, |refs|, 4);
    RefsRead(bytes, idx + 4, refs);
  }

  lemma {:induction false} RefsRead(bytes: seq<byte>, at: nat, refs: seq<Ref>)
    requires forall r :: r in refs ==> r.off < U64 && r.clen < U32 && r.count < U32
    requires at + |Repeated.EncodeAll(RefBytes, refs)| <= |bytes|
    requires bytes[at..at + |Repeated.EncodeAll(RefBytes, refs)|] == Repeated.EncodeAll(RefBytes, refs)
    ensures Repeated.ParseAll(ParseRef, bytes, at, |refs|).Ok?
    ensures Repeated.ParseAll(ParseRef, bytes, at, |refs|).value.0 == refs
  {
    forall r | r in refs ensures Repeated.Inverse(RefBytes, ParseRef, r) { RefRoundTrip(r); }
    Repeated.RoundTrip(RefBytes, ParseRef, bytes, at, refs);
  }

  lemma {:induction false} RefsFit(z: Zstd, dict: seq<byte>, cs: seq<Chunk>, off: nat)
    ensures forall r :: r in Refs(z, dict, cs, off) ==> r.off < U64 && r.clen < U32 && r.count < U32
  {
    if cs != [] { RefsFit(z, dict, cs[1..], off + |Compressed(z, dict, cs[0])|); }
  }

  lemma {:induction false} EncodedRefs(refs: seq<Ref>)
    ensures |Repeated.EncodeAll(RefBytes, refs)| == REF_LEN * |refs|
  {
    if refs != [] { EncodedRefs(refs[1..]); }
  }

  lemma {:induction false} ChunkCount(paths: seq<Str>)
    ensures |Chunks(paths)| <= |paths|
  {
    if |paths| > BLOCK_PATHS { ChunkCount(paths[BLOCK_PATHS..]); }
  }

  ghost predicate SeesBlocks(img: Image, z: Zstd, paths: seq<Str>) {
    var dict, cs := z.train(paths), Chunks(paths);
    var at := BlocksBase(dict, |cs|);
    && img.dict == dict && img.blocks == Refs(z, dict, cs, at)
    && at + |BlockData(z, dict, cs)| <= |img.src|
    && img.src[at..at + |BlockData(z, dict, cs)|] == BlockData(z, dict, cs)
  }

  ghost predicate SeesMetas(img: Image, metas: seq<LiteMeta>) {
    && img.numDocs == |metas| && img.metaOff + META_LEN * |metas| <= |img.src|
    && img.src[img.metaOff..img.metaOff + META_LEN * |metas|] == MetaRecords(metas)
  }

  /** The parts of a finished file as its reader sees them. */
  ghost predicate Sees(img: Image, z: Zstd, time: nat, docs: seq<Doc>, t: seq<RobinHood.Slot>) {
    && SeesBlocks(img, z, Paths(docs)) && SeesMetas(img, Metas(docs)) && img.buildTime == time
    && img.Slots() == |t| && img.tryOff <= |img.src| && RobinHood.TableBytes(t) <= img.src[img.tryOff..]
  }

  lemma {:induction false} FrontLength(dict: seq<byte>, refs: seq<Ref>)
    ensures |Front(dict, refs)| == 4 + |dict| + 4 + |refs| * REF_LEN
  {
    EncodedRefs(refs);
  }

  lemma {:induction false} SectionIs(z: Zstd, paths: seq<Str>, dict: seq<byte>, cs: seq<Chunk>, at: nat,
      refs: seq<Ref>)
    requires dict == z.train(paths) && cs == Chunks(paths)
    requires at == BlocksBase(dict, |cs|) && refs == Refs(z, dict, cs, at)
    ensures DocsSection(z, paths) == Front(dict, refs) + BlockData(z, dict, cs)
    ensures at == HEADER_LEN + |Front(dict, refs)|
  {
    FrontLength(dict, refs);
  }

  /** The section is the front and the blocks behind it. */
  lemma {:induction false} SectionHalves(bytes: seq<byte>, z: Zstd, paths: seq<Str>, dict: seq<byte>,
      cs: seq<Chunk>, at: nat, refs: seq<Ref>)
    requires dict == z.train(paths) && cs == Chunks(paths)
    requires at == BlocksBase(dict, |cs|) && refs == Refs(z, dict, cs, at)
    requires var section := DocsSection(z, paths);
             HEADER_LEN + |section| <= |bytes| && bytes[HEADER_LEN..HEADER_LEN + |section|] == section
    ensures at == HEADER_LEN + |Front(dict, refs)| <= |bytes| && bytes[HEADER_LEN..at] == Front(dict, refs)
    ensures var data := BlockData(z, dict, cs); at + |data| <= |bytes| && bytes[at..at + |data|] == data
  {
    SectionIs(z, paths, dict, cs, at, refs);
    SplitAt(bytes, HEADER_LEN, Front(dict, refs), BlockData(z, dict, cs), DocsSection(z, paths), at);
  }

  lemma {:induction false} SplitAt(bytes: seq<byte>, at: nat, a: seq<byte>, b: seq<byte>, both: seq<byte>, mid: nat)
    requires both == a + b && at + |both| <= |bytes| && bytes[at..at + |both|] == both && mid == at + |a|
    ensures bytes[at..mid] == a && mid + |b| <= |bytes| && bytes[mid..mid + |b|] == b
  {
    Halves(bytes, at, a, b);
  }

  lemma {:induction false} DocsFront(bytes: seq<byte>, z: Zstd, paths: seq<Str>, dict: seq<byte>,
      cs: seq<Chunk>, at: nat, refs: seq<Ref>)
    requires dict == z.train(paths) && cs == Chunks(paths)
    requires at == BlocksBase(dict, |cs|) && refs == Refs(z, dict, cs, at)
    requires |dict| < U32 && |paths| < U32 && HEADER_LEN + |DocsSection(z, paths)| <= |bytes|
    requires bytes[HEADER_LEN..HEADER_LEN + |DocsSection(z, paths)|] == DocsSection(z, paths)
    ensures FrontSeen(bytes, HEADER_LEN, dict, refs)
  {
    SectionHalves(bytes, z, paths, dict, cs, at, refs);
    ChunkCount(paths);
    RefsFit(z, dict, cs, at);
    FrontRead(bytes, HEADER_LEN, dict, refs);
  }

  /** The steps of `Open` on a file whose fields are known. */
  lemma {:induction false} OpenSteps(bytes: seq<byte>, docs: nat, time: nat, metaOff: nat, tryOff: nat, log2: nat,
      dict: seq<byte>, refs: seq<Ref>)
    requires HEADER_LEN <= |bytes| && bytes[..4] == MAGIC && Read(bytes, 4, 4) == VERSION && Read(bytes, 8, 4) == docs
    requires Read(bytes, 12, 8) == time && Read(bytes, 20, 8) == HEADER_LEN && Read(bytes, 28, 8) == metaOff
    requires Read(bytes, 44, 8) == tryOff && Read(bytes, 60, 4) == log2 && log2 < 64
    requires FrontSeen(bytes, HEADER_LEN, dict, refs)
    ensures Open(bytes) == Ok(Image(bytes, docs, time, metaOff, tryOff, log2, dict, refs))
  {
  }

  /** Where a finished file has its documents, metadata and table. */
  ghost predicate Laid(bytes: seq<byte>, section: seq<byte>, metas: seq<byte>, table: seq<byte>, metaOff: nat,
      tryOff: nat) {
    && metaOff == HEADER_LEN + |section| && tryOff == metaOff + |metas| && tryOff <= |bytes|
    && bytes[HEADER_LEN..metaOff] == section && bytes[metaOff..tryOff] == metas && table <= bytes[tryOff..]
  }

  lemma {:induction false} LaidOut(bytes: seq<byte>, docs: nat, time: nat, log2: nat, section: seq<byte>,
      metas: seq<byte>, table: seq<byte>, lists: seq<byte>)
    returns (header: seq<byte>, metaOff: nat, tryOff: nat, postOff: nat)
    requires bytes == FileOf(docs, time, log2, section, metas, table, lists) && |bytes| < U64 && docs < U32
    ensures Laid(bytes, section, metas, table, metaOff, tryOff)
    ensures bytes[..HEADER_LEN] == header && header == HeaderBytes(docs, time, metaOff, tryOff, postOff, log2)
    ensures |lists| <= |bytes| && bytes[|bytes| - |lists|..] == lists
  {
    metaOff := HEADER_LEN + |section|;
    tryOff := metaOff + |metas|;
    postOff := Cut64(tryOff + |table|);
    header := HeaderBytes(docs, time, Cut64(metaOff), Cut64(tryOff), postOff, log2);
    FileParts(bytes, header, section, metas, table, lists);
  }

  /** Opening a laid-out file succeeds. */
  lemma {:induction false} OpenLaid(bytes: seq<byte>, z: Zstd, time: nat, docs: nat, paths: seq<Str>, log2: nat,
      metaOff: nat, tryOff: nat, postOff: nat)
    requires metaOff == HEADER_LEN + |DocsSection(z, paths)| <= tryOff <= |bytes| < U64
    requires bytes[HEADER_LEN..metaOff] == DocsSection(z, paths)
    requires bytes[..HEADER_LEN] == HeaderBytes(docs, time, metaOff, tryOff, postOff, log2)
    requires docs < U32 && |paths| < U32 && time < U64 && log2 < 64 && |z.train(paths)| < U32
    ensures var dict, cs := z.train(paths), Chunks(paths);
            var refs := Refs(z, dict, cs, BlocksBase(dict, |cs|));
            Open(bytes) == Ok(Image(bytes, docs, time, metaOff, tryOff, log2, dict, refs))
  {
    var dict, cs := z.train(paths), Chunks(paths);
    var at := BlocksBase(dict, |cs|);
    var refs := Refs(z, dict, cs, at);
    HeaderRead(bytes, docs, time, metaOff, tryOff, postOff, log2);
    DocsFront(bytes, z, paths, dict, cs, at, refs);
    OpenSteps(bytes, docs, time, metaOff, tryOff, log2, dict, refs);
  }

  lemma {:induction false} LaidBlocks(img: Image, z: Zstd, paths: seq<Str>, metaOff: nat)
    requires metaOff == HEADER_LEN + |DocsSection(z, paths)| <= |img.src|
    requires img.src[HEADER_LEN..metaOff] == DocsSection(z, paths)
    requires |paths| < U32 && |z.train(paths)| < U32 && img.dict == z.train(paths)
    requires img.blocks == Refs(z, img.dict, Chunks(paths), BlocksBase(img.dict, |Chunks(paths)|))
    ensures SeesBlocks(img, z, paths)
  {
    var dict, cs := img.dict, Chunks(paths);
    SectionHalves(img.src, z, paths, dict, cs, BlocksBase(dict, |cs|), img.blocks);
  }

  lemma {:induction false} LaidMetas(img: Image, metas: seq<LiteMeta>, tryOff: nat)
    requires img.numDocs == |metas| && tryOff == img.metaOff + |MetaRecords(metas)| <= |img.src|
    requires img.src[img.metaOff..tryOff] == MetaRecords(metas)
    ensures SeesMetas(img, metas)
  {
  }

  /** Opening a finished database succeeds and sees every part as it was written. */
  lemma {:induction false} OpenExact(bytes: seq<byte>, h: nat -> nat, z: Zstd, time: nat, docs: seq<Doc>, log2: nat,
      t: seq<RobinHood.Slot>, lists: seq<byte>, base: nat, m: Index)
    requires Holds(bytes, h, z, time, docs, log2, t, lists, base, m)
    requires |docs| <= Postings.MAX_DOCS && |z.train(Paths(docs))| < U32
    ensures Open(bytes).Ok? && Open(bytes).value.src == bytes && Sees(Open(bytes).value, z, time, docs, t)
    ensures base <= |bytes| && bytes[base..] == lists
  {
    var header, metaOff, tryOff, postOff := LaidOut(bytes, |docs|, time, log2, DocsSection(z, Paths(docs)),
                                                    MetaRecords(Metas(docs)), RobinHood.TableBytes(t), lists);
    ExponentFits(bytes, t, log2, tryOff);
    OpenLaid(bytes, z, time, |docs|, Paths(docs), log2, metaOff, tryOff, postOff);
    var img := Open(bytes).value;
    LaidBlocks(img, z, Paths(docs), metaOff);
    LaidMetas(img, Metas(docs), tryOff);
  }

  lemma {:induction false} ExponentFits(bytes: seq<byte>, t: seq<RobinHood.Slot>, log2: nat, tryOff: nat)
    requires tryOff <= |bytes| < U64 && RobinHood.TableBytes(t) <= bytes[tryOff..]
    requires |t| == (if log2 == 0 then 0 else Bits.Pow2(log2))
    ensures log2 < 64
  {
    if log2 > 0 { Bits.SmallExponent(log2); }
  }

  // ---------------------------------------------------------------- documents

  /** Block `i` of the index points at the compressed chunk `i`. */
  lemma {:induction false} RefPoints(src: seq<byte>, z: Zstd, dict: seq<byte>, cs: seq<Chunk>, at: nat, i: nat)
    requires i < |cs| && |src| < U64
    requires forall c :: c in cs ==> |Compressed(z, dict, c)| < U32 && |c| < U32
    requires var data := BlockData(z, dict, cs); at + |data| <= |src| && src[at..at + |data|] == data
    ensures PointsAt(Refs(z, dict, cs, at)[i], src, Compressed(z, dict, cs[i]), |cs[i]|)
    decreases |cs|
  {
    var c, tail := cs[0], cs[1..];
    assert c in cs;
    var comp, rest := Compressed(z, dict, c), BlockData(z, dict, tail);
    var next: nat := at + |comp|;
    SplitAt(src, at, comp, rest, BlockData(z, dict, cs), next);
    var refs := Refs(z, dict, tail, next);
    assert Refs(z, dict, cs, at) == [Ref(at, |comp|, |c|)] + refs;
    if i > 0 {
      RefPoints(src, z, dict, tail, next, i - 1);
      assert Refs(z, dict, cs, at)[i] == refs[i - 1] && cs[i] == tail[i - 1];
    }
  }

  ghost predicate PointsAt(r: Ref, src: seq<byte>, comp: seq<byte>, count: nat) {
    r.count == count && r.off + r.clen <= |src| && src[r.off..r.off + r.clen] == comp
  }

  /** The counts of the index are the chunk lengths, so its starts are prefix sums. */
  ghost predicate Counts(refs: seq<Ref>, cs: seq<Chunk>) {
    |refs| == |cs| && forall i :: 0 <= i < |cs| ==> refs[i].count == |cs[i]| > 0
  }

  /** Chunk `p - 1` is the last to start at or before the place `at`, and document `d` stands
      there; a document past the end is behind that chunk. */
  ghost predicate Placed(starts: seq<nat>, cs: seq<Chunk>, at: nat, flat: seq<Str>, d: nat, p: nat) {
    && 1 <= p <= |starts| == |cs| && starts[p - 1] <= at
    && var local := at - starts[p - 1];
       if d < |flat| then local < |cs[p - 1]| && cs[p - 1][local] == flat[d] else local >= |cs[p - 1]|
  }

  lemma {:induction false} PlacedBehind(start: nat, starts: seq<nat>, c: Chunk, cs: seq<Chunk>, at: nat,
      flat: seq<Str>, d: nat, p: nat)
    requires Placed(starts, cs, at, flat, d, p)
    ensures Placed([start] + starts, [c] + cs, at, c + flat, |c| + d, 1 + p)
  {
  }

  /** Binary search and offset lead to the chunk and the place of document `d`; a
      document past the end is behind the last chunk. */
  lemma {:induction false} PlaceExact(refs: seq<Ref>, cs: seq<Chunk>, start: nat, d: nat)
    requires Counts(refs, cs) && cs != []
    ensures var starts, at := Starts(refs, start), start + d;
            Placed(starts, cs, at, Flatten(cs), d, PartitionPoint(starts, at))
    decreases |cs|
  {
    var c, rest, next := cs[0], cs[1..], start + |cs[0]|;
    StartsHead(refs, start, next, start + d);
    if d >= |c| && rest != [] {
      PlaceExact(refs[1..], rest, next, d - |c|);
      PlacedBehind(start, Starts(refs[1..], next), c, rest, start + d, Flatten(rest), d - |c|,
                   PartitionPoint(Starts(refs[1..], next), start + d));
      assert [c] + rest == cs;
    }
  }

  lemma {:induction false} StartsHead(refs: seq<Ref>, start: nat, next: nat, d: nat)
    requires refs != [] && refs[0].count > 0 && next == start + refs[0].count && start <= d
    ensures var starts, tail := Starts(refs, start), Starts(refs[1..], next);
      && starts == [start] + tail
      && PartitionPoint(starts, d) == 1 + PartitionPoint(tail, d)
      && (d < next ==> PartitionPoint(tail, d) == 0)
  {
    assert Starts(refs, start)[1..] == Starts(refs[1..], next);
  }

  lemma {:induction false} FindPlace(img: Image, d: nat, starts: seq<nat>, p: nat)
    requires starts == img.BlockStart() && 1 <= p == PartitionPoint(starts, d) && starts[p - 1] <= d
    ensures var local := d - starts[p - 1];
            img.Find(d) == if local >= img.blocks[p - 1].count then Err(OutOfRange) else Ok((p - 1, local))
  {
  }

  lemma {:induction false} FindExact(img: Image, cs: seq<Chunk>, d: nat)
    requires Counts(img.blocks, cs)
    ensures if d < |Flatten(cs)|
            then img.Find(d).Ok? && (var (i, local) := img.Find(d).value;
                                     local < |cs[i]| && cs[i][local] == Flatten(cs)[d])
            else img.Find(d) == Err(OutOfRange)
  {
    if cs == [] {
      assert Flatten(cs) == [];
    } else {
      PlaceExact(img.blocks, cs, 0, d);
      FindPlace(img, d, img.BlockStart(), PartitionPoint(img.BlockStart(), d));
    }
  }

  lemma {:induction false} ChunkSizes(z: Zstd, docs: seq<Doc>)
    requires Fits(z, docs)
    ensures forall c :: c in Chunks(Paths(docs)) ==> |Compressed(z, z.train(Paths(docs)), c)| < U32 && |c| < U32
  {
  }

  lemma {:induction false} BlockDecoded(img: Image, z: Zstd, i: nat, c: Chunk)
    requires i < |img.blocks| && PointsAt(img.blocks[i], img.src, Compressed(z, img.dict, c), |c|) && Lossless(z)
    ensures img.blocks[i].count == |c| && img.BlockBytes(z, i) == Ok(PathRecords(c))
  {
  }

  lemma {:induction false} BlockSeen(img: Image, z: Zstd, docs: seq<Doc>, i: nat)
    requires SeesBlocks(img, z, Paths(docs)) && Fits(z, docs) && Lossless(z) && |img.src| < U64
    requires i < |Chunks(Paths(docs))|
    ensures i < |img.blocks| && img.blocks[i].count == |Chunks(Paths(docs))[i]|
    ensures img.BlockBytes(z, i) == Ok(PathRecords(Chunks(Paths(docs))[i]))
  {
    var cs := Chunks(Paths(docs));
    ChunkSizes(z, docs);
    RefPoints(img.src, z, img.dict, cs, BlocksBase(img.dict, |cs|), i);
    BlockDecoded(img, z, i, cs[i]);
  }

  lemma {:induction false} ChunkPaths(paths: seq<Str>, c: Chunk)
    requires c in Chunks(paths)
    ensures forall q :: q in c ==> q in paths
  {
    if |paths| > BLOCK_PATHS && c != paths[..BLOCK_PATHS] { ChunkPaths(paths[BLOCK_PATHS..], c); }
  }

  /** Document `d` has exactly the path that was inserted as number `d`; behind the
      last document there is an error. */
  lemma {:induction false} DocPathExact(img: Image, z: Zstd, docs: seq<Doc>, d: nat)
    requires SeesBlocks(img, z, Paths(docs)) && Fits(z, docs) && Lossless(z) && |img.src| < U64
    ensures img.DocPath(z, d) == if d < |docs| then Ok(docs[d].path) else Err(OutOfRange)
  {
    var paths := Paths(docs);
    var cs := Chunks(paths);
    ChunksFlatten(paths);
    forall i | 0 <= i < |cs| ensures img.blocks[i].count == |cs[i]| > 0 {
      BlockSeen(img, z, docs, i);
      assert cs[i] in cs;
    }
    FindExact(img, cs, d);
    if d < |docs| {
      var (i, local) := img.Find(d).value;
      BlockSeen(img, z, docs, i);
      ChunkPaths(paths, cs[i]);
      var block := PathRecords(cs[i]);
      assert block[0..] == block;
      ExtractExact(block, 0, cs[i], local);
    }
  }

  lemma {:induction false} DocMetaExact(img: Image, metas: seq<LiteMeta>, d: nat)
    requires SeesMetas(img, metas)
    ensures img.DocMeta(d) == if d < |metas| then Ok(metas[d]) else Err(OutOfRange)
  {
    if d < |metas| {
      MetaExact(img.src, img.metaOff, metas, d);
    }
  }

  lemma {:induction false} PostingSeen(img: Image, h: nat -> nat, z: Zstd, time: nat, docs: seq<Doc>, log2: nat,
      t: seq<RobinHood.Slot>, lists: seq<byte>, base: nat, m: Index, trig: nat)
    requires Sees(img, z, time, docs, t)
    requires IndexedBy(t, h, lists, base, docs, log2, m)
    requires base + |lists| == |img.src| && img.src[base..] == lists
    ensures var post := PostingOf(Lowered(docs), trig);
            img.Posting(h, trig) == Ok(if post == [] then None else Some(post))
  {
    assert Entry(m, trig, PostingOf(Lowered(docs), trig));
    if |t| > 0 {
      Postings.ServesInFile(t, h, lists, base, m, img.src);
      Postings.FetchExact(img.src[img.tryOff..], t, img.src, h, m, trig);
    }
  }

  /** Whether a path matches, by its declarative meaning on ASCII. */
  predicate Hit(path: seq<byte>, needle: seq<byte>, cs: bool) {
    Contains(if cs then path else Fold(path), needle)
  }

  function Hits(docs: seq<Doc>, needle: seq<byte>, cs: bool): nat -> bool {
    (d: nat) => d < |docs| && Hit(docs[d].path, needle, cs)
  }

  /** A database that answers for `docs`: what later layers use of it. */
  ghost predicate Answers(img: Image, z: Zstd, h: nat -> nat, docs: seq<Doc>) {
    && img.numDocs == |docs|
    && (forall d: nat :: img.DocPath(z, d) == if d < |docs| then Ok(docs[d].path) else Err(OutOfRange))
    && (forall d: nat :: img.DocMeta(d) == if d < |docs| then Ok(docs[d].meta) else Err(OutOfRange))
    && (forall trig: nat :: img.Posting(h, trig)
          == Ok(if PostingOf(Lowered(docs), trig) == [] then None else Some(PostingOf(Lowered(docs), trig))))
  }

  /** Everything a finished database answers, from its bytes alone. */
  lemma {:induction false} RoundTrip(bytes: seq<byte>, h: nat -> nat, z: Zstd, time: nat, docs: seq<Doc>)
    requires IsDb(bytes, h, z, time, docs) && Fits(z, docs) && Lossless(z)
    ensures Open(bytes).Ok? && Open(bytes).value.buildTime == time
    ensures Answers(Open(bytes).value, z, h, docs)
  {
    var log2: nat, t, lists, base: nat, m :| Holds(bytes, h, z, time, docs, log2, t, lists, base, m);
    OpenExact(bytes, h, z, time, docs, log2, t, lists, base, m);
    var img := Open(bytes).value;
    forall d: nat
      ensures img.DocPath(z, d) == if d < |docs| then Ok(docs[d].path) else Err(OutOfRange)
      ensures img.DocMeta(d) == if d < |docs| then Ok(docs[d].meta) else Err(OutOfRange)
    {
      DocPathExact(img, z, docs, d);
      DocMetaExact(img, Metas(docs), d);
    }
    forall trig: nat
      ensures img.Posting(h, trig)
           == Ok(if PostingOf(Lowered(docs), trig) == [] then None else Some(PostingOf(Lowered(docs), trig)))
    {
      PostingSeen(img, h, z, time, docs, log2, t, lists, base, m, trig);
    }
  }

  lemma {:induction false} SourceLists(img: Image, z: Zstd, h: nat -> nat, docs: seq<Doc>)
    requires Answers(img, z, h, docs)
    ensures Candidates.Lists(img.Source(z, h), Lowered(docs)) && Candidates.AllAscending(img.Source(z, h))
  {
    var texts := Lowered(docs);
    forall trig: nat
      ensures Candidates.PostingFor(img.Posting(h, trig), texts, trig)
      ensures img.Posting(h, trig).value.Some? ==> Ascending(img.Posting(h, trig).value.value)
    {
      PostingExact(texts, trig);
      if PostingOf(texts, trig) == [] {
        forall d | 0 <= d < |texts| ensures !HasTrigram(texts[d], trig) { assert d !in PostingOf(texts, trig); }
      }
    }
  }

  /** Searching the database is scanning the inserted paths. */
  lemma {:induction false} SearchIsScan(img: Image, z: Zstd, h: nat -> nat, docs: seq<Doc>, q: seq<byte>, cs: bool,
      limit: Option<nat>)
    requires Answers(img, z, h, docs)
    ensures var needle := if cs then q else Fold(q);
            Candidates.Candidates(img.Source(z, h), Fold(q), q, cs, limit)
              == Ok(Candidates.Scan(|docs|, Hits(docs, needle, cs), limit))
  {
    var needle := if cs then q else Fold(q);
    var texts := Lowered(docs);
    var src := img.Source(z, h);
    SourceLists(img, z, h, docs);
    forall d: nat | d < |texts|
      ensures img.Verify(z, d, needle, cs) == Ok(Hits(docs, needle, cs)(d))
      ensures Hits(docs, needle, cs)(d) ==> Contains(texts[d], Fold(q))
    {
      assert img.DocPath(z, d) == Ok(docs[d].path);
      if cs && Hit(docs[d].path, needle, cs) { FoldContains(docs[d].path, q); }
      if needle == [] { assert Occurs(if cs then docs[d].path else Fold(docs[d].path), needle, 0); }
    }
    Candidates.CandidatesAreScan(src, texts, Hits(docs, needle, cs), Fold(q), q, cs, limit);
  }
}
