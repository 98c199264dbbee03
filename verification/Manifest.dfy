/** The manifest of a content index: its shards, in order. */
module Manifest {
  import opened Prelude
  import opened Bytes
  import Repeated
  import Varint

  datatype ShardEntry = ShardEntry(shardId: nat, baseDocid: nat, numDocs: nat, file: Str)

  datatype Manifest = Manifest(buildTime: nat, totalContentDocs: nat, shards: seq<ShardEntry>)

  /** The field widths of the format, which the original's types enforce. */
  ghost predicate FitsEntry(s: ShardEntry) {
    s.shardId < U32 && s.baseDocid < U32 && s.numDocs < U32 && |s.file| < U32
  }

  ghost predicate Fits(m: Manifest) {
    m.buildTime < U64 && m.totalContentDocs < U32 && |m.shards| < U32 && forall s :: s in m.shards ==> FitsEntry(s)
  }

  function EncodeEntry(s: ShardEntry): seq<byte> {
    LE32(s.shardId) + LE32(s.baseDocid) + LE32(s.numDocs) + (Varint.Encode(Cut32(|s.file|)) + s.file)
  }

  function Encode(m: Manifest): seq<byte> {
    LE64(m.buildTime) + LE32(m.totalContentDocs) + LE32(Cut32(|m.shards|)) + Repeated.EncodeAll(EncodeEntry, m.shards)
  }

  function ParseEntry(bytes: seq<byte>, p: nat): Result<(ShardEntry, nat)> {
    if p + 12 > |bytes| then Err(DbFormat)
    else
      match Varint.Decode(bytes, p + 12, 0, 0)
      case None => Err(DbFormat)
      case Some((flen, q)) =>
        if q + flen > |bytes| || !Utf8(bytes[q..q + flen]) then Err(DbFormat)
        else
          var id, base, docs := Read(bytes, p, 4), Read(bytes, p + 4, 4), Read(bytes, p + 8, 4);
          Ok((ShardEntry(id, base, docs, bytes[q..q + flen]), q + flen))
  }

  function Decode(bytes: seq<byte>): Option<Manifest> {
    if |bytes| < 16 then None
    else
      match Repeated.ParseAll(ParseEntry, bytes, 16, Read(bytes, 12, 4))
      case Err(_) => None
      case Ok((shards, _)) => Some(Manifest(Read(bytes, 0, 8), Read(bytes, 8, 4), shards))
  }

  method EncodeManifest(m: Manifest) returns (out: seq<byte>)
    requires forall s :: s in m.shards ==> FitsEntry(s)
    ensures out == Encode(m)
  {
    out := LE64(m.buildTime);
    out := out + LE32(m.totalContentDocs);
    out := out + LE32(Cut32(|m.shards|));
    ghost var head := out;
    for i := 0 to |m.shards|
      invariant out == head + Repeated.EncodeAll(EncodeEntry, m.shards[..i])
    {
      var s := m.shards[i];
      Repeated.EncodeAllAppend(EncodeEntry, m.shards[..i], s);
      assert m.shards[..i + 1] == m.shards[..i] + [s];
      out := AppendEntry(out, s);
    }
    assert m.shards[..|m.shards|] == m.shards;
  }

  method AppendEntry(out0: seq<byte>, s: ShardEntry) returns (out: seq<byte>)
    ensures out == out0 + EncodeEntry(s)
  {
    out := out0 + LE32(s.shardId);
    out := out + LE32(s.baseDocid);
    out := out + LE32(s.numDocs);
    out := Varint.EncodeU32(Cut32(|s.file|), out);
    out := out + s.file;
  }

  method DecodeManifest(bytes: seq<byte>) returns (r: Option<Manifest>)
    ensures r == Decode(bytes)
  {
    if |bytes| < 16 { return None; }
    var shards := ReadEntries(bytes, 16, Read(bytes, 12, 4));
    if shards.Err? { return None; }
    return Some(Manifest(Read(bytes, 0, 8), Read(bytes, 8, 4), shards.value.0));
  }

  method ReadEntries(bytes: seq<byte>, from: nat, count: nat) returns (r: Result<(seq<ShardEntry>, nat)>)
    ensures r == Repeated.ParseAll(ParseEntry, bytes, from, count)
  {
    var p: nat := from;
    var shards: seq<ShardEntry> := [];
    ghost var all := Repeated.ParseAll(ParseEntry, bytes, from, count);
    Repeated.Start(all);
    for k := 0 to count
      invariant all == Repeated.Behind(shards, Repeated.ParseAll(ParseEntry, bytes, p, count - k))
    {
      Repeated.Step(ParseEntry, bytes, p, count - k, shards);
      var entry := ReadEntry(bytes, p);
      if entry.Err? { return Err(entry.error); }
      shards := shards + [entry.value.0];
      p := entry.value.1;
    }
    assert shards + [] == shards;
    return Ok((shards, p));
  }

  method ReadEntry(bytes: seq<byte>, p: nat) returns (r: Result<(ShardEntry, nat)>)
    ensures r == ParseEntry(bytes, p)
  {
    if p + 12 > |bytes| { return Err(DbFormat); }
    var flen := Varint.DecodeU32(bytes, p + 12);
    if flen.None? { return Err(DbFormat); }
    var (len, q) := flen.value;
    if q + len > |bytes| || !Utf8(bytes[q..q + len]) { return Err(DbFormat); }
    var id, base, docs := Read(bytes, p, 4), Read(bytes, p + 4, 4), Read(bytes, p + 8, 4);
    return Ok((ShardEntry(id, base, docs, bytes[q..q + len]), q + len));
  }

  // ---------------------------------------------------------------- round trip

  lemma {:induction false} EntryFields(bytes: seq<byte>, p: nat, s: ShardEntry)
    requires FitsEntry(s) && p + 12 <= |bytes|
    requires bytes[p..p + 12] == LE32(s.shardId) + LE32(s.baseDocid) + LE32(s.numDocs)
    ensures Read(bytes, p, 4) == s.shardId && Read(bytes, p + 4, 4) == s.baseDocid && Read(bytes, p + 8, 4) == s.numDocs
  {
    WidthBounds();
    Halves(bytes, p, LE32(s.shardId) + LE32(s.baseDocid), LE32(s.numDocs));
    Halves(bytes, p, LE32(s.shardId), LE32(s.baseDocid));
    ReadLittle(bytes, p, s.shardId, 4);
    ReadLittle(bytes, p + 4, s.baseDocid, 4);
    ReadLittle(bytes, p + 8, s.numDocs, 4);
  }

  lemma {:induction false} EntryName(bytes: seq<byte>, p: nat, file: seq<byte>)
    requires |file| < U32
    requires var name := Varint.Encode(|file|) + file; p + |name| <= |bytes| && bytes[p..p + |name|] == name
    ensures var q := p + |Varint.Encode(|file|)|;
            Varint.Decode(bytes, p, 0, 0) == Some((|file|, q)) && bytes[q..q + |file|] == file
  {
    Halves(bytes, p, Varint.Encode(|file|), file);
    Varint.RoundTrip(bytes, p, |file|);
  }

  lemma {:induction false} EntryReads(bytes: seq<byte>, p: nat, s: ShardEntry, part: seq<byte>, end: nat)
    requires FitsEntry(s) && part == EncodeEntry(s)
    requires end == p + |part| <= |bytes| && bytes[p..end] == part
    ensures ParseEntry(bytes, p) == Ok((s, end))
  {
    var ids := LE32(s.shardId) + LE32(s.baseDocid) + LE32(s.numDocs);
    var name := Varint.Encode(|s.file|) + s.file;
    Halves(bytes, p, ids, name);
    EntryFields(bytes, p, s);
    EntryName(bytes, p + 12, s.file);
  }

  lemma {:induction false} EntryReadsAnywhere(s: ShardEntry, part: seq<byte>)
    requires FitsEntry(s) && part == EncodeEntry(s)
    ensures forall bytes: seq<byte>, p: nat | p + |part| <= |bytes| && bytes[p..p + |part|] == part ::
      ParseEntry(bytes, p) == Ok((s, p + |part|))
  {
    forall bytes: seq<byte>, p: nat | p + |part| <= |bytes| && bytes[p..p + |part|] == part
      ensures ParseEntry(bytes, p) == Ok((s, p + |part|))
    {
      EntryReads(bytes, p, s, part, p + |part|);
    }
  }

  lemma {:induction false} EntryRoundTrip(s: ShardEntry)
    requires FitsEntry(s)
    ensures Repeated.Inverse(EncodeEntry, ParseEntry, s)
  {
    EntryReadsAnywhere(s, EncodeEntry(s));
  }

  lemma {:induction false} HeadRead(bytes: seq<byte>, time: nat, total: nat, count: nat, rest: seq<byte>)
    requires time < U64 && total < U32 && count < U32
    requires bytes == LE64(time) + LE32(total) + LE32(count) + rest
    ensures Read(bytes, 0, 8) == time && Read(bytes, 8, 4) == total && Read(bytes, 12, 4) == count
    ensures bytes[16..] == rest
  {
    WidthBounds();
    assert bytes[0..|bytes|] == LE64(time) + LE32(total) + LE32(count) + rest;
    Quarters(bytes, 0, LE64(time), LE32(total), LE32(count), rest);
    ReadLittle(bytes, 0, time, 8);
    ReadLittle(bytes, 8, total, 4);
    ReadLittle(bytes, 12, count, 4);
  }

  /** Decoding an encoded manifest gives it back. */
  lemma {:induction false} RoundTrip(m: Manifest)
    requires Fits(m)
    ensures Decode(Encode(m)) == Some(m)
  {
    var bytes, all := Encode(m), Repeated.EncodeAll(EncodeEntry, m.shards);
    HeadRead(bytes, m.buildTime, m.totalContentDocs, |m.shards|, all);
    forall s | s in m.shards ensures Repeated.Inverse(EncodeEntry, ParseEntry, s) { EntryRoundTrip(s); }
    assert bytes[16..16 + |all|] == all;
    Repeated.RoundTrip(EncodeEntry, ParseEntry, bytes, 16, m.shards);
  }
}
