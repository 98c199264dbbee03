/** The file formats byte by byte: which field of what a builder writes stands where.  All
    numbers are little-endian (`Bytes.BytePlace`). */
module Layouts {
  import opened Prelude
  import opened Bytes
  import opened Records
  import Bits
  import Container
  import FileDb
  import Manifest
  import Postings
  import Repeated
  import RobinHood
  import Shard
  import TurboPFor
  import Varint
  import O = Overlay
  import Wal

  /** `n` stands at `at` as a number of `k` bytes. */
  ghost predicate Field(b: seq<byte>, at: nat, k: nat, n: nat) { at + k <= |b| && Read(b, at, k) == n }

  lemma {:induction false} FieldAt(b: seq<byte>, at: nat, k: nat, n: nat)
    requires at + k <= |b| && b[at..at + k] == Little(n, k) && n < Pow256(k)
    ensures Field(b, at, k, n)
  {
    ReadLittle(b, at, n, k);
  }

  // ---------------------------------------------------------------- records

  /** `is_dir:u8 | size:i64 | mtime:i64`, 17 bytes; the numbers in two's complement. */
  lemma {:induction false} MetaLayout(m: LiteMeta)
    ensures var b := MetaRecord(m);
            && |b| == 17 && b[0] == (if m.isDir then 1 else 0)
            && (Read(b, 1, 8) - m.size) % U64 == 0 && (Read(b, 9, 8) - m.mtime) % U64 == 0
  {
    var b := MetaRecord(m);
    TwosComplement(m.size);
    TwosComplement(m.mtime);
    assert b[1..9] == LEi64(m.size) && b[9..17] == LEi64(m.mtime);
  }

  /** A path behind its length. */
  lemma {:induction false} PathLayout(path: seq<byte>)
    requires |path| < U32
    ensures Field(PathRecord(path), 0, 4, |path|) && PathRecord(path)[4..] == path
  {
    WidthBounds();
    assert PathRecord(path)[0..4] == LE32(|path|);
    FieldAt(PathRecord(path), 0, 4, |path|);
  }

  /** `key:u32 | count:u32 | post_off:u64 | enc_len:u32`, 20 bytes. */
  lemma {:induction false} SlotLayout(s: RobinHood.Slot)
    requires RobinHood.Storable(s)
    ensures var b := RobinHood.SlotBytes(s);
            && |b| == 20 && Field(b, 0, 4, s.key) && Field(b, 4, 4, s.count) && Field(b, 8, 8, s.off)
            && Field(b, 16, 4, s.len)
  {
    WidthBounds();
    var b := RobinHood.SlotBytes(s);
    assert b[0..4] == LE32(s.key) && b[4..8] == LE32(s.count) && b[8..16] == LE64(s.off) && b[16..20] == LE32(s.len);
    FieldAt(b, 0, 4, s.key);
    FieldAt(b, 4, 4, s.count);
    FieldAt(b, 8, 8, s.off);
    FieldAt(b, 16, 4, s.len);
  }

  /** Slot `i` of the table, and what marks an empty one. */
  lemma {:induction false} TableLayout(t: seq<RobinHood.Slot>, i: nat)
    requires i < |t|
    ensures var b := RobinHood.TableBytes(t); |b| == 20 * |t| && b[20 * i..20 * i + 20] == RobinHood.SlotBytes(t[i])
    ensures !RobinHood.Occupied(t[i]) <==> t[i].key == 0xFFFF_FFFF
  {
    RobinHood.SlotInTable(t, i);
  }

  // ---------------------------------------------------------------- posting blobs

  /** `version:u8 = 1 | delta_count:u32`, then blocks of 128 deltas. */
  lemma {:induction false} PostingLayout(deltas: seq<TurboPFor.u32>)
    requires |deltas| < U32
    ensures var b := TurboPFor.Encode(deltas);
            b[0] == 1 && Field(b, 1, 4, |deltas|) && b[5..] == TurboPFor.Blocks(deltas)
    ensures |deltas| > 128 ==>
      TurboPFor.Blocks(deltas) == TurboPFor.Block(deltas[..128]) + TurboPFor.Blocks(deltas[128..])
    ensures 0 < |deltas| <= 128 ==> TurboPFor.Blocks(deltas) == TurboPFor.Block(deltas)
  {
    WidthBounds();
    var b := TurboPFor.Encode(deltas);
    assert b[1..5] == LE32(|deltas|);
    FieldAt(b, 1, 4, |deltas|);
  }

  /** `b:u8 | exc_count:u16`, then the bit planes: bit `p` of value `i` is bit `p * n + i` of the
      frame, counted from the low end of its first byte. */
  lemma {:induction false} BlockLayout(vals: seq<TurboPFor.u32>, p: nat, i: nat, k: nat)
    requires |vals| <= 128 && i < |vals| && p < TurboPFor.Width(vals) && k == p * |vals| + i
    ensures var b, w := TurboPFor.Block(vals), TurboPFor.Width(vals);
            && b[0] == w && Field(b, 1, 2, TurboPFor.Exceptions(vals, w)) && 3 + k / 8 < |b|
            && (b[3 + k / 8] / Bits.Pow2(k % 8) % 2 == 1 <==> vals[i] / Bits.Pow2(p) % 2 == 1)
  {
    var w := TurboPFor.Width(vals);
    var planes := TurboPFor.Planes(vals, w);
    var b, frame := TurboPFor.Block(vals), TurboPFor.Pack(planes);
    WidthBounds();
    assert b[1..3] == LE16(TurboPFor.Exceptions(vals, w));
    FieldAt(b, 1, 2, TurboPFor.Exceptions(vals, w));
    TurboPFor.BitInPlanes(vals, w, p, i);
    TurboPFor.BitOfPack(planes, k);
    assert k / 8 < |frame| && b[3 + k / 8] == frame[k / 8];
    Bits.BitIsDigit(frame[k / 8], k % 8);
    Bits.BitIsDigit(vals[i], p);
  }

  /** Behind the frame, `pos:u16 | value:u32` for each value that the width does not hold, in
      order. */
  lemma {:induction false} PatchLayout(vals: seq<TurboPFor.u32>, i: nat)
    requires |vals| <= 128 && i < |vals| && TurboPFor.Exceeds(vals[i], TurboPFor.Width(vals))
    ensures var b, w := TurboPFor.Block(vals), TurboPFor.Width(vals);
            var at := 3 + TurboPFor.Div8Ceil(w * |vals|) + 6 * TurboPFor.Exceptions(vals[..i], w);
            Field(b, at, 2, i) && Field(b, at + 2, 4, vals[i])
  {
    var b, w := TurboPFor.Block(vals), TurboPFor.Width(vals);
    var front := 3 + TurboPFor.Div8Ceil(w * |vals|);
    var at := PatchAt(vals, w, 0, i);
    TurboPFor.AllExceptions(vals, w);
    TurboPFor.ExceptionsSplit(vals, w, i);
    BlockEnd(vals, w, front);
    PatchFields(b, front, TurboPFor.Patches(vals, w, 0), at, i, vals[i]);
  }

  lemma {:induction false} BlockEnd(vals: seq<TurboPFor.u32>, w: nat, front: nat)
    requires |vals| <= 128 && w == TurboPFor.Width(vals) && front == 3 + TurboPFor.Div8Ceil(w * |vals|)
    ensures var b := TurboPFor.Block(vals); front <= |b| && b[front..] == TurboPFor.Patches(vals, w, 0)
  {
  }

  lemma {:induction false} PatchFields(b: seq<byte>, front: nat, patches: seq<byte>, at: nat, i: nat, v: TurboPFor.u32)
    requires front <= |b| && b[front..] == patches && at + 6 <= |patches| && i < U16
    requires patches[at..at + 6] == LE16(i) + LE32(v)
    ensures Field(b, front + at, 2, i) && Field(b, front + at + 2, 4, v)
  {
    WidthBounds();
    Halves(patches, at, LE16(i), LE32(v));
    assert b[front + at..front + at + 2] == patches[at..at + 2];
    assert b[front + at + 2..front + at + 6] == patches[at + 2..at + 6];
    FieldAt(b, front + at, 2, i);
    FieldAt(b, front + at + 2, 4, v);
  }

  lemma {:induction false} PatchAt(vals: seq<TurboPFor.u32>, w: nat, j: nat, i: nat) returns (at: nat)
    requires j <= i < |vals| <= 128 && TurboPFor.Exceeds(vals[i], w)
    ensures at == 6 * (TurboPFor.ExceptionsFrom(vals, w, j) - TurboPFor.ExceptionsFrom(vals, w, i))
    ensures var patches := TurboPFor.Patches(vals, w, j);
            at + 6 <= |patches| && patches[at..at + 6] == LE16(i) + LE32(vals[i])
    decreases i - j
  {
    if j == i {
      at := 0;
    } else {
      var next := PatchAt(vals, w, j + 1, i);
      var rest := TurboPFor.Patches(vals, w, j + 1);
      var here := if TurboPFor.Exceeds(vals[j], w) then LE16(j) + LE32(vals[j]) else [];
      at := |here| + next;
      assert (here + rest)[at..at + 6] == rest[next..next + 6];
    }
  }

  /** A value does not fit when it has more bits than the width, and a width costs its bits for
      every value and 32 more for each that does not fit. */
  lemma {:induction false} CostIs(vals: seq<TurboPFor.u32>, b: nat)
    requires 1 <= b < 32
    ensures TurboPFor.Cost(vals, b) == b * |vals| + 32 * |set i | 0 <= i < |vals| && vals[i] >= Bits.Pow2(b)|
  {
    CountIs(vals, b);
    Bits.MulCommutes(|vals|, b);
  }

  lemma {:induction false} CountIs(vals: seq<TurboPFor.u32>, b: nat)
    requires b < 32
    ensures TurboPFor.Exceptions(vals, b) == |set i | 0 <= i < |vals| && vals[i] >= Bits.Pow2(b)|
  {
    if vals != [] {
      var n := |vals| - 1;
      var front := set i | 0 <= i < n && vals[..n][i] >= Bits.Pow2(b);
      var all := set i | 0 <= i < |vals| && vals[i] >= Bits.Pow2(b);
      CountIs(vals[..n], b);
      Bits.ShrIsZero(vals[n], b);
      assert all == if vals[n] >= Bits.Pow2(b) then front + {n} else front;
    }
  }

  // ---------------------------------------------------------------- the filename database

  /** The header: `magic[4] | version:u32 | num_docs:u32 | build_time:u64 | docs_off:u64 |
      meta_off:u64 | 0:u64 | try_off:u64 | post_off:u64 | slots_log2:u32`. */
  lemma {:induction false} HeaderLayout(docs: nat, time: nat, metaOff: nat, tryOff: nat, postOff: nat, log2: nat)
    requires docs < U32 && time < U64 && metaOff < U64 && tryOff < U64 && postOff < U64 && log2 < U32
    ensures var b := FileDb.HeaderBytes(docs, time, metaOff, tryOff, postOff, log2);
            && |b| == 64 && b[..4] == Ascii("DFDB") && Field(b, 4, 4, 2) && Field(b, 8, 4, docs)
            && Field(b, 12, 8, time) && Field(b, 20, 8, 64) && Field(b, 28, 8, metaOff) && Field(b, 36, 8, 0)
            && Field(b, 44, 8, tryOff) && Field(b, 52, 8, postOff) && Field(b, 60, 4, log2)
  {
    WidthBounds();
    var b := FileDb.HeaderBytes(docs, time, metaOff, tryOff, postOff, log2);
    assert Ascii("DFDB") == [68, 70, 68, 66] && b[..64] == b;
    FileDb.HeaderRead(b, docs, time, metaOff, tryOff, postOff, log2);
    assert b[36..44] == LE64(0);
    FieldAt(b, 36, 8, 0);
    assert b[52..60] == LE64(postOff);
    FieldAt(b, 52, 8, postOff);
  }

  /** The sections DOCS, META, HASH and POSTINGS behind the header, where it says. */
  lemma {:induction false} DatabaseLayout(b: seq<byte>, docs: nat, time: nat, log2: nat, section: seq<byte>,
      metas: seq<byte>, table: seq<byte>, lists: seq<byte>)
    requires b == FileDb.FileOf(docs, time, log2, section, metas, table, lists)
    requires |b| < U64 && docs < U32 && time < U64 && log2 < U32
    ensures var metaOff := 64 + |section|; var tryOff := metaOff + |metas|; var postOff := tryOff + |table|;
            && postOff <= |b| && b[..64] == FileDb.HeaderBytes(docs, time, metaOff, tryOff, postOff, log2)
            && b[64..metaOff] == section && b[metaOff..tryOff] == metas && b[tryOff..postOff] == table
            && b[postOff..] == lists
  {
  }

  /** DOCS: `dict_len:u32 | dict | num_blocks:u32 | num_blocks * (off:u64 | clen:u32 | count:u32)`,
      then the blocks. */
  lemma {:induction false} DocsLayout(z: FileDb.Zstd, paths: seq<Str>)
    requires |z.train(paths)| < U32 && |paths| < U32
    ensures var b, dict, cs := FileDb.DocsSection(z, paths), z.train(paths), FileDb.Chunks(paths);
            && Field(b, 0, 4, |dict|) && 4 + |dict| <= |b| && b[4..4 + |dict|] == dict && Field(b, 4 + |dict|, 4, |cs|)
  {
    WidthBounds();
    var b, dict, cs := FileDb.DocsSection(z, paths), z.train(paths), FileDb.Chunks(paths);
    FileDb.ChunkCount(paths);
    var refs := FileDb.Refs(z, dict, cs, FileDb.BlocksBase(dict, |cs|));
    FrontFields(b, dict, refs, FileDb.BlockData(z, dict, cs));
  }

  lemma {:induction false} FrontFields(b: seq<byte>, dict: seq<byte>, refs: seq<FileDb.Ref>, data: seq<byte>)
    requires b == FileDb.Front(dict, refs) + data && |dict| < U32 && |refs| < U32
    ensures Field(b, 0, 4, |dict|) && 4 + |dict| <= |b| && b[4..4 + |dict|] == dict && Field(b, 4 + |dict|, 4, |refs|)
  {
    WidthBounds();
    var at := 4 + |dict|;
    assert b[0..4] == LE32(|dict|) && b[4..at] == dict && b[at..at + 4] == LE32(|refs|);
    FieldAt(b, 0, 4, |dict|);
    FieldAt(b, at, 4, |refs|);
  }

  lemma {:induction false} RefLayout(r: FileDb.Ref)
    requires r.off < U64 && r.clen < U32 && r.count < U32
    ensures var b := FileDb.RefBytes(r);
            |b| == 16 && Field(b, 0, 8, r.off) && Field(b, 8, 4, r.clen) && Field(b, 12, 4, r.count)
  {
    WidthBounds();
    var b := FileDb.RefBytes(r);
    assert b[0..8] == LE64(r.off) && b[8..12] == LE32(r.clen) && b[12..16] == LE32(r.count);
    FieldAt(b, 0, 8, r.off);
    FieldAt(b, 8, 4, r.clen);
    FieldAt(b, 12, 4, r.count);
  }

  /** Path `d` is in block `d / 256`, at place `d % 256`. */
  lemma {:induction false} BlockOfPath(paths: seq<Str>, d: nat)
    requires d < |paths|
    ensures var cs := FileDb.Chunks(paths);
            d / 256 < |cs| && d % 256 < |cs[d / 256]| && cs[d / 256][d % 256] == paths[d]
  {
    if |paths| > 256 && d >= 256 {
      BlockOfPath(paths[256..], d - 256);
      assert (d - 256) / 256 == d / 256 - 1 && (d - 256) % 256 == d % 256;
    }
  }

  // ---------------------------------------------------------------- the shard

  /** The footer `toc_off:u32 | toc_sz:u32` ends the file and points at the table of contents,
      which stands between the sections and the footer. */
  lemma {:induction false} ContainerLayout(secs: seq<Container.Section>)
    requires |Container.Assemble(secs)| < U32
    ensures var b, tocOff := Container.Assemble(secs), |Container.Body(secs)|;
            && |b| >= 8 && Field(b, |b| - 8, 4, tocOff) && Field(b, |b| - 4, 4, |b| - 8 - tocOff)
            && tocOff + 4 <= |b| && b[..tocOff] == Container.Body(secs) && Field(b, tocOff, 4, |secs|)
            && b[tocOff + 4..|b| - 8] == Container.TocEntries(Container.Locs(secs))
  {
    var body, entries := Container.Body(secs), Container.TocEntries(Container.Locs(secs));
    Container.EntriesLong(Container.Locs(secs));
    FooterAt(Container.Assemble(secs), body, LE32(|secs|) + entries);
    TocAt(Container.Assemble(secs), body, |secs|, entries, LE32(|body|) + LE32(4 + |entries|));
  }

  lemma {:induction false} FooterAt(b: seq<byte>, body: seq<byte>, toc: seq<byte>)
    requires b == body + toc + LE32(|body|) + LE32(|toc|) && |b| < U32
    ensures Field(b, |b| - 8, 4, |body|) && Field(b, |b| - 4, 4, |toc|)
  {
    WidthBounds();
    var f := |b| - 8;
    assert b[0..|b|] == body + toc + LE32(|body|) + LE32(|toc|);
    Quarters(b, 0, body, toc, LE32(|body|), LE32(|toc|));
    FieldAt(b, f, 4, |body|);
    FieldAt(b, f + 4, 4, |toc|);
  }

  lemma {:induction false} TocAt(b: seq<byte>, body: seq<byte>, count: nat, entries: seq<byte>, footer: seq<byte>)
    requires b == body + (LE32(count) + entries) + footer && count < U32
    ensures var o := |body|; var e := o + 4 + |entries|;
            && e <= |b| && b[..o] == body && Field(b, o, 4, count) && b[o + 4..e] == entries && b[e..] == footer
  {
    WidthBounds();
    var o := |body|;
    assert b[o..o + 4] == LE32(count);
    FieldAt(b, o, 4, count);
  }

  /** An entry: `varint tag_len | tag | 0:u8 | off:u32 | sz:u32`. */
  lemma {:induction false} TocLayout(l: Container.Loc)
    requires l.off < U32 && l.sz < U32 && |l.tag| < U32
    ensures var b, v := Container.TocEntry(l), Varint.Encode(|l.tag|);
            var at := |v| + |l.tag|;
            && |b| == at + 9 && b[..|v|] == v && b[|v|..at] == l.tag && b[at] == 0
            && Field(b, at + 1, 4, l.off) && Field(b, at + 5, 4, l.sz)
  {
    WidthBounds();
    var b, v := Container.TocEntry(l), Varint.Encode(|l.tag|);
    var at := |v| + |l.tag|;
    assert b[at + 1..at + 5] == LE32(l.off) && b[at + 5..at + 9] == LE32(l.sz);
    FieldAt(b, at + 1, 4, l.off);
    FieldAt(b, at + 5, 4, l.sz);
  }

  /** The seven sections and their names. */
  lemma {:induction false} SectionNames(st: Shard.Stamp, files: seq<Shard.File>, log2: nat, table: seq<byte>,
      lists: seq<byte>)
    ensures var secs := Shard.Sections(st.time, st.id, st.base, files, log2, table, lists);
            && secs[1] == Container.Section(Ascii("fileNames"), PathRecords(Shard.Paths(files)))
            && secs[2] == Container.Section(Ascii("fileMeta"), MetaRecords(Shard.Metas(files)))
            && secs[3] == Container.Section(Ascii("contentOffsets"), Shard.OffsetRecords(Shard.Offsets(files)))
            && secs[4] == Container.Section(Ascii("contentCorpus"), Shard.Corpus(files))
            && secs[5] == Container.Section(Ascii("ctHash"), table)
            && secs[6] == Container.Section(Ascii("ctPostings"), lists)
            && secs[0].tag == Ascii("metaData")
  {
  }

  /** `metaData`: `version:u16 = 1 | build_time:u64 | shard_id:u32 | base_docid:u32 | num_docs:u32 |
      slots_log2:u32`. */
  lemma {:induction false} ShardMetaLayout(time: nat, id: nat, base: nat, docs: nat, log2: nat)
    requires time < U64 && id < U32 && base < U32 && docs < U32 && log2 < U32
    ensures var b := Shard.MetaBytes(time, id, base, docs, log2);
            && |b| == 26 && Field(b, 0, 2, 1) && Field(b, 2, 8, time) && Field(b, 10, 4, id) && Field(b, 14, 4, base)
            && Field(b, 18, 4, docs) && Field(b, 22, 4, log2)
  {
    Shard.MetaBytesRead(time, id, base, docs, log2);
  }

  /** `contentOffsets`: `u64 off | u32 len`, 12 bytes, of where each content stands in the corpus. */
  lemma {:induction false} OffsetLayout(files: seq<Shard.File>, i: nat)
    requires i < |files| && |Shard.Corpus(files)| < U32
    ensures var (off, len) := Shard.Offsets(files)[i]; var b := Shard.OffsetRecord((off, len));
            && |b| == 12 && Field(b, 0, 8, off) && Field(b, 8, 4, len)
            && off + len <= |Shard.Corpus(files)| && Shard.Corpus(files)[off..off + len] == files[i].content
  {
    WidthBounds();
    Shard.ContentInCorpus(files, i);
    var (off, len) := Shard.Offsets(files)[i];
    var b := Shard.OffsetRecord((off, len));
    assert b[0..8] == LE64(off) && b[8..12] == LE32(len);
    FieldAt(b, 0, 8, off);
    FieldAt(b, 8, 4, len);
  }

  // ---------------------------------------------------------------- manifest and log

  /** `build_time:u64 | total:u32 | count:u32`, then the entries. */
  lemma {:induction false} ManifestLayout(m: Manifest.Manifest)
    requires Manifest.Fits(m)
    ensures var b := Manifest.Encode(m);
            Field(b, 0, 8, m.buildTime) && Field(b, 8, 4, m.totalContentDocs) && Field(b, 12, 4, |m.shards|)
  {
    WidthBounds();
    var b := Manifest.Encode(m);
    assert b[0..8] == LE64(m.buildTime) && b[8..12] == LE32(m.totalContentDocs) && b[12..16] == LE32(|m.shards|);
    FieldAt(b, 0, 8, m.buildTime);
    FieldAt(b, 8, 4, m.totalContentDocs);
    FieldAt(b, 12, 4, |m.shards|);
  }

  /** `id:u32 | base:u32 | num:u32 | varint file_len | file`. */
  lemma {:induction false} EntryLayout(s: Manifest.ShardEntry)
    requires Manifest.FitsEntry(s)
    ensures var b := Manifest.EncodeEntry(s);
            && Field(b, 0, 4, s.shardId) && Field(b, 4, 4, s.baseDocid) && Field(b, 8, 4, s.numDocs)
            && b[12..] == Varint.Encode(|s.file|) + s.file
  {
    WidthBounds();
    var b := Manifest.EncodeEntry(s);
    assert b[0..4] == LE32(s.shardId) && b[4..8] == LE32(s.baseDocid) && b[8..12] == LE32(s.numDocs);
    FieldAt(b, 0, 4, s.shardId);
    FieldAt(b, 4, 4, s.baseDocid);
    FieldAt(b, 8, 4, s.numDocs);
  }

  /** A log frame: `len:u32`, then the record. */
  lemma {:induction false} FrameLayout(c: Wal.Codec, r: O.WalRecord)
    requires |c.enc(r)| < U32
    ensures Field(Wal.Frame(c, r), 0, 4, |c.enc(r)|) && Wal.Frame(c, r)[4..] == c.enc(r)
  {
    WidthBounds();
    var b := Wal.Frame(c, r);
    assert b[0..4] == LE32(|c.enc(r)|);
    FieldAt(b, 0, 4, |c.enc(r)|);
  }

  // ---------------------------------------------------------------- what opens

  lemma {:induction false} RefsFit(src: seq<byte>, p: nat, count: nat)
    requires p <= |src|
    ensures Repeated.ParseAll(FileDb.ParseRef, src, p, count).Ok? <==> p + 16 * count <= |src|
    decreases count
  {
    if count > 0 && p + 16 <= |src| { RefsFit(src, p + 16, count - 1); }
  }

  /** Any bytes open as a filename database if and only if magic and version are there, the
      size of the table is a number of bits, and dictionary and block index lie inside. */
  lemma {:induction false} OpenIff(src: seq<byte>)
    ensures FileDb.Open(src).Ok? <==>
      && |src| >= 64 && src[..4] == Ascii("DFDB") && Read(src, 4, 4) == 2 && Read(src, 60, 4) < 64
      && var at := Read(src, 20, 8);
      && at + 4 <= |src|
      && var idx := at + 4 + Read(src, at, 4);
      && idx + 4 <= |src| && idx + 4 + 16 * Read(src, idx, 4) <= |src|
  {
    assert Ascii("DFDB") == FileDb.MAGIC;
    if |src| >= 64 {
      var at := Read(src, 20, 8);
      if at + 4 <= |src| {
        var idx := at + 4 + Read(src, at, 4);
        if idx + 4 <= |src| { RefsFit(src, idx + 4, Read(src, idx, 4)); }
      }
    }
  }

  lemma {:induction false} ReadPart(b: seq<byte>, from: nat, to: nat, at: nat, k: nat)
    requires from <= to <= |b| && at + k <= to - from
    ensures Read(b[from..to], at, k) == Read(b, from + at, k)
  {
    var x, y := b[from..to][at..at + k], b[from + at..from + at + k];
    forall i | 0 <= i < k ensures x[i] == y[i] { }
    assert x == y;
  }

  lemma {:induction false} StampAt(b: seq<byte>, from: nat, to: nat)
    requires from + 26 <= to <= |b|
    ensures var md := b[from..to];
            && Read(md, 0, 2) == Read(b, from, 2) && Read(md, 2, 8) == Read(b, from + 2, 8)
            && Read(md, 10, 4) == Read(b, from + 10, 4) && Read(md, 14, 4) == Read(b, from + 14, 4)
            && Read(md, 18, 4) == Read(b, from + 18, 4) && Read(md, 22, 4) == Read(b, from + 22, 4)
  {
    ReadPart(b, from, to, 0, 2);
    ReadPart(b, from, to, 2, 8);
    ReadPart(b, from, to, 10, 4);
    ReadPart(b, from, to, 14, 4);
    ReadPart(b, from, to, 18, 4);
    ReadPart(b, from, to, 22, 4);
  }

  lemma {:induction false} StampNeeds(b: seq<byte>, sect: Container.Directory)
    requires Shard.Header(b, sect).Ok?
    ensures var r := Shard.Header(b, sect).value;
            && r.bytes == b && r.sect == sect && r.log2 < 64 && Ascii("metaData") in sect
            && var at := sect[Ascii("metaData")].off;
            && Field(b, at, 2, 1) && Field(b, at + 2, 8, r.buildTime) && Field(b, at + 10, 4, r.shardId)
            && Field(b, at + 14, 4, r.baseDocid) && Field(b, at + 18, 4, r.numDocs) && Field(b, at + 22, 4, r.log2)
  {
    var l := sect[Shard.META_DATA];
    StampAt(b, l.off, l.off + l.sz);
  }

  /** What opens as a shard has a footer that points at the table of contents right before it,
      and a first section of version 1, whose fields the reader shows. */
  lemma {:induction false} ShardNeeds(b: seq<byte>)
    requires Shard.Open(b).Ok?
    ensures |b| >= 8 && Read(b, |b| - 8, 4) + Read(b, |b| - 4, 4) == |b| - 8
    ensures var r := Shard.Open(b).value;
            && r.bytes == b && r.log2 < 64 && Ascii("metaData") in r.sect
            && var at := r.sect[Ascii("metaData")].off;
            && Field(b, at, 2, 1) && Field(b, at + 2, 8, r.buildTime) && Field(b, at + 10, 4, r.shardId)
            && Field(b, at + 14, 4, r.baseDocid) && Field(b, at + 18, 4, r.numDocs) && Field(b, at + 22, 4, r.log2)
  {
    StampNeeds(b, Container.ParseToc(Shard.KNOWN, b).value);
  }

  lemma {:induction false} EntryCount(b: seq<byte>, p: nat, count: nat)
    ensures var r := Repeated.ParseAll(Manifest.ParseEntry, b, p, count); r.Ok? ==> |r.value.0| == count
    decreases count
  {
    if count > 0 && Manifest.ParseEntry(b, p).Ok? { EntryCount(b, Manifest.ParseEntry(b, p).value.1, count - 1); }
  }

  /** What decodes as a manifest has its three numbers in front, and as many entries as it says. */
  lemma {:induction false} ManifestNeeds(b: seq<byte>)
    requires Manifest.Decode(b).Some?
    ensures var m := Manifest.Decode(b).value;
            && Field(b, 0, 8, m.buildTime) && Field(b, 8, 4, m.totalContentDocs) && Field(b, 12, 4, |m.shards|)
  {
    EntryCount(b, 16, Read(b, 12, 4));
  }
}
