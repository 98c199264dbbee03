/** The section container of a `.dfcs` shard: sections back to back, a table of
    contents, and an 8-byte footer that locates it. */
module Container {
  import opened Prelude
  import opened Bytes
  import Varint
  import Repeated

  /** A section name, as the bytes of its spelling. */
  type Tag = seq<byte>

  datatype Section = Section(tag: Tag, data: seq<byte>)

  datatype Loc = Loc(tag: Tag, off: nat, sz: nat)

  function Body(secs: seq<Section>): seq<byte> {
    if secs == [] then [] else Body(secs[..|secs| - 1]) + secs[|secs| - 1].data
  }

  /** Where each section of the body lies, cut to 32 bits. */
  function Locs(secs: seq<Section>): (locs: seq<Loc>)
    ensures |locs| == |secs|
  {
    seq(|secs|, i requires 0 <= i < |secs| => Loc(secs[i].tag, Cut32(|Body(secs[..i])|), Cut32(|secs[i].data|)))
  }

  function TocEntry(l: Loc): (e: seq<byte>)
    ensures |e| == |Varint.Encode(Cut32(|l.tag|))| + |l.tag| + 9
  {
    Varint.Encode(Cut32(|l.tag|)) + l.tag + [0] + LE32(l.off) + LE32(l.sz)
  }

  function TocEntries(locs: seq<Loc>): seq<byte> { Repeated.EncodeAll(TocEntry, locs) }

  function Toc(locs: seq<Loc>): seq<byte> { LE32(Cut32(|locs|)) + TocEntries(locs) }

  function Assemble(secs: seq<Section>): seq<byte> {
    var body, toc := Body(secs), Toc(Locs(secs));
    body + toc + LE32(Cut32(|body|)) + LE32(Cut32(|toc|))
  }

  method Write(secs: seq<Section>) returns (out: seq<byte>)
    ensures out == Assemble(secs)
  {
    var locs;
    out, locs := WriteBody(secs);
    var tocOff := |out|;
    out := WriteEntries(out + LE32(Cut32(|locs|)), locs);
    var tocSz := |out| - tocOff;
    out := out + LE32(Cut32(tocOff));
    out := out + LE32(Cut32(tocSz));
    assert out == Body(secs) + Toc(locs) + LE32(Cut32(tocOff)) + LE32(Cut32(tocSz));
  }

  method WriteBody(secs: seq<Section>) returns (out: seq<byte>, locs: seq<Loc>)
    ensures out == Body(secs) && locs == Locs(secs)
  {
    out, locs := [], [];
    for i := 0 to |secs|
      invariant out == Body(secs[..i])
      invariant locs == Locs(secs)[..i]
    {
      assert secs[..i + 1][..i] == secs[..i];
      var off := Cut32(|out|);
      out := out + secs[i].data;
      locs := locs + [Loc(secs[i].tag, off, Cut32(|secs[i].data|))];
    }
    assert secs[..|secs|] == secs;
  }

  method WriteEntries(out0: seq<byte>, locs: seq<Loc>) returns (out: seq<byte>)
    ensures out == out0 + TocEntries(locs)
  {
    out := out0;
    for i := 0 to |locs|
      invariant out == out0 + TocEntries(locs[..i])
    {
      assert locs[..i + 1] == locs[..i] + [locs[i]];
      Repeated.EncodeAllAppend(TocEntry, locs[..i], locs[i]);
      ghost var was := out;
      var tag := locs[i].tag;
      out := Varint.EncodeU32(Cut32(|tag|), out);
      out := out + tag;
      out := out + [0];
      out := out + LE32(locs[i].off);
      out := out + LE32(locs[i].sz);
      assert out == was + TocEntry(locs[i]);
    }
    assert locs[..|locs|] == locs;
  }

  // ---------------------------------------------------------------- reading

  type Directory = map<Tag, Loc>

  /** One entry of the table of contents at `p`, and the position behind it. */
  function ParseEntry(toc: seq<byte>, p: nat): Result<(Loc, nat)> {
    match Varint.Decode(toc, p, 0, 0)
    case None => Err(DbFormat)
    case Some((len, q)) =>
      if q + len + 9 > |toc| then Err(Panic)
      else Ok((Loc(toc[q..q + len], Read(toc, q + len + 1, 4), Read(toc, q + len + 5, 4)), q + len + 9))
  }

  /** The directory of the entries read; tags outside `known` are skipped. */
  function Enter(known: set<Tag>, locs: seq<Loc>): Directory {
    if locs == [] then map[]
    else
      var n := |locs| - 1;
      var before := Enter(known, locs[..n]);
      if locs[n].tag in known then before[locs[n].tag := locs[n]] else before
  }

  function ParseEntries(known: set<Tag>, toc: seq<byte>, count: nat): Result<Directory> {
    match Repeated.ParseAll(ParseEntry, toc, 4, count)
    case Err(e) => Err(e)
    case Ok((locs, _)) => Ok(Enter(known, locs))
  }

  function ParseToc(known: set<Tag>, bytes: seq<byte>): Result<Directory> {
    if |bytes| < 8 then Err(DbFormat)
    else
      var footer := |bytes| - 8;
      var tocOff, tocSz := Read(bytes, footer, 4), Read(bytes, footer + 4, 4);
      if tocOff + tocSz != footer then Err(DbFormat)
      else
        var toc := bytes[tocOff..footer];
        if |toc| < 4 then Err(Panic) else ParseEntries(known, toc, Read(toc, 0, 4))
  }

  method ReadToc(known: set<Tag>, bytes: seq<byte>) returns (r: Result<Directory>)
    ensures r == ParseToc(known, bytes)
  {
    if |bytes| < 8 { return Err(DbFormat); }
    var footer := |bytes| - 8;
    var tocOff, tocSz := Read(bytes, footer, 4), Read(bytes, footer + 4, 4);
    if tocOff + tocSz != footer { return Err(DbFormat); }
    var toc := bytes[tocOff..footer];
    if |toc| < 4 { return Err(Panic); }
    r := ReadEntries(known, toc, Read(toc, 0, 4));
  }

  method ReadEntry(toc: seq<byte>, p: nat) returns (r: Result<(Loc, nat)>)
    ensures r == ParseEntry(toc, p)
  {
    var tagLen := Varint.DecodeU32(toc, p);
    if tagLen.None? { return Err(DbFormat); }
    var len: nat, q: nat := tagLen.value.0, tagLen.value.1;
    if q + len + 9 > |toc| { return Err(Panic); }
    var tag := toc[q..q + len];
    return Ok((Loc(tag, Read(toc, q + len + 1, 4), Read(toc, q + len + 5, 4)), q + len + 9));
  }

  method ReadEntries(known: set<Tag>, toc: seq<byte>, count: nat) returns (r: Result<Directory>)
    ensures r == ParseEntries(known, toc, count)
  {
    var p: nat := 4;
    var sect: Directory := map[];
    ghost var locs: seq<Loc> := [];
    ghost var all := Repeated.ParseAll(ParseEntry, toc, 4, count);
    Repeated.Start(all);
    for k := 0 to count
      invariant sect == Enter(known, locs)
      invariant all == Repeated.Behind(locs, Repeated.ParseAll(ParseEntry, toc, p, count - k))
    {
      var entry := ReadEntry(toc, p);
      Repeated.Step(ParseEntry, toc, p, count - k, locs);
      if entry.Err? { return Err(entry.error); }
      var l := entry.value.0;
      EnterOne(known, locs, l);
      if l.tag in known {
        sect := sect[l.tag := l];
      }
      locs := locs + [l];
      p := entry.value.1;
    }
    assert locs + [] == locs;
    return Ok(sect);
  }

  lemma {:induction false} EnterOne(known: set<Tag>, locs: seq<Loc>, l: Loc)
    ensures Enter(known, locs + [l])
         == if l.tag in known then Enter(known, locs)[l.tag := l] else Enter(known, locs)
  {
    assert (locs + [l])[..|locs|] == locs;
  }

  // ---------------------------------------------------------------- round trip

  ghost predicate Fits(l: Loc) { l.off < U32 && l.sz < U32 && |l.tag| < U32 }

  lemma {:induction false} EntryRoundTrip(l: Loc)
    requires Fits(l)
    ensures Repeated.Inverse(TocEntry, ParseEntry, l)
  {
    var part := TocEntry(l);
    forall toc: seq<byte>, p: nat | p + |part| <= |toc| && toc[p..p + |part|] == part
      ensures ParseEntry(toc, p) == Ok((l, p + |part|))
    {
      EntryReads(toc, p, l, part, p + |part|);
    }
  }

  lemma {:induction false} EntryReads(toc: seq<byte>, p: nat, l: Loc, part: seq<byte>, end: nat)
    requires Fits(l) && part == TocEntry(l)
    requires end == p + |part| <= |toc| && toc[p..end] == part
    ensures ParseEntry(toc, p) == Ok((l, end))
  {
    var v := Varint.Encode(|l.tag|);
    var q := p + |v|;
    Quarters(toc, p, v, l.tag, [0] + LE32(l.off), LE32(l.sz));
    assert v + l.tag + ([0] + LE32(l.off)) + LE32(l.sz) == TocEntry(l);
    Halves(toc, q + |l.tag|, [0], LE32(l.off));
    Varint.RoundTrip(toc, p, |l.tag|);
    EntryFields(toc, q + |l.tag|, l);
  }

  lemma {:induction false} EntryFields(toc: seq<byte>, at: nat, l: Loc)
    requires l.off < U32 && l.sz < U32 && at + 9 <= |toc|
    requires toc[at + 1..at + 5] == LE32(l.off) && toc[at + 5..at + 9] == LE32(l.sz)
    ensures Read(toc, at + 1, 4) == l.off && Read(toc, at + 5, 4) == l.sz
  {
    WidthBounds();
    ReadLittle(toc, at + 1, l.off, 4);
    ReadLittle(toc, at + 5, l.sz, 4);
  }

  ghost predicate DistinctTags(locs: seq<Loc>) {
    forall i, j :: 0 <= i < j < |locs| ==> locs[i].tag != locs[j].tag
  }

  lemma {:induction false} EnterHas(known: set<Tag>, locs: seq<Loc>, i: nat)
    requires DistinctTags(locs) && i < |locs| && locs[i].tag in known
    ensures locs[i].tag in Enter(known, locs) && Enter(known, locs)[locs[i].tag] == locs[i]
  {
    if i < |locs| - 1 {
      EnterHas(known, locs[..|locs| - 1], i);
    }
  }

  lemma {:induction false} SectionInBody(secs: seq<Section>, i: nat)
    requires i < |secs|
    ensures var off := |Body(secs[..i])|;
            off + |secs[i].data| <= |Body(secs)| && Body(secs)[off..off + |secs[i].data|] == secs[i].data
    decreases |secs|
  {
    var n := |secs| - 1;
    if i < n {
      assert secs[..n][..i] == secs[..i];
      SectionInBody(secs[..n], i);
      var off := |Body(secs[..i])|;
      SubSlice(Body(secs), 0, Body(secs[..n]), off, off + |secs[i].data|);
    }
  }

  lemma {:induction false} FooterParts(bytes: seq<byte>, body: seq<byte>, toc: seq<byte>)
    requires bytes == body + toc + LE32(|body|) + LE32(|toc|) && |bytes| < U32
    ensures var footer := |bytes| - 8;
            && Read(bytes, footer, 4) == |body| && Read(bytes, footer + 4, 4) == |toc|
            && |body| + |toc| == footer && bytes[|body|..footer] == toc && bytes[..|body|] == body
  {
    WidthBounds();
    var footer := |bytes| - 8;
    assert bytes[footer..footer + 4] == LE32(|body|);
    assert bytes[footer + 4..footer + 8] == LE32(|toc|);
    ReadLittle(bytes, footer, |body|, 4);
    ReadLittle(bytes, footer + 4, |toc|, 4);
  }

  lemma {:induction false} TocStart(toc: seq<byte>, locs: seq<Loc>)
    requires toc == LE32(|locs|) + TocEntries(locs) && |locs| < U32
    ensures Read(toc, 0, 4) == |locs| && toc[4..] == TocEntries(locs)
  {
    WidthBounds();
    assert toc[0..4] == LE32(|locs|);
    ReadLittle(toc, 0, |locs|, 4);
  }

  lemma {:induction false} LocsFit(secs: seq<Section>)
    requires |Toc(Locs(secs))| < U32
    ensures |secs| < U32 && forall l :: l in Locs(secs) ==> Fits(l)
  {
    EntriesLong(Locs(secs));
  }

  lemma {:induction false} EntriesFound(known: set<Tag>, toc: seq<byte>, locs: seq<Loc>)
    requires toc == LE32(|locs|) + TocEntries(locs) && |locs| < U32
    requires forall l :: l in locs ==> Fits(l)
    ensures ParseEntries(known, toc, Read(toc, 0, 4)) == Ok(Enter(known, locs))
  {
    TocStart(toc, locs);
    forall l | l in locs ensures Repeated.Inverse(TocEntry, ParseEntry, l) { EntryRoundTrip(l); }
    Repeated.RoundTrip(TocEntry, ParseEntry, toc, 4, locs);
  }

  lemma {:induction false} TocFound(known: set<Tag>, secs: seq<Section>)
    requires |Assemble(secs)| < U32
    ensures ParseToc(known, Assemble(secs)) == Ok(Enter(known, Locs(secs)))
    ensures Body(secs) <= Assemble(secs)
  {
    var bytes, body, locs := Assemble(secs), Body(secs), Locs(secs);
    var toc := Toc(locs);
    LocsFit(secs);
    assert bytes == body + toc + LE32(|body|) + LE32(|toc|);
    FooterParts(bytes, body, toc);
    EntriesFound(known, toc, locs);
    Located(known, bytes, body, toc);
  }

  lemma {:induction false} Located(known: set<Tag>, bytes: seq<byte>, body: seq<byte>, toc: seq<byte>)
    requires |bytes| >= 8 && |toc| >= 4 && |body| + |toc| == |bytes| - 8
    requires Read(bytes, |bytes| - 8, 4) == |body| && Read(bytes, |bytes| - 4, 4) == |toc|
    requires bytes[|body|..|bytes| - 8] == toc
    ensures ParseToc(known, bytes) == ParseEntries(known, toc, Read(toc, 0, 4))
  {
  }

  lemma {:induction false} SectionFound(known: set<Tag>, secs: seq<Section>, i: nat)
    requires DistinctTags(Locs(secs)) && |Body(secs)| < U32 && i < |secs| && secs[i].tag in known
    ensures var d := Enter(known, Locs(secs)); var off := |Body(secs[..i])|;
            && secs[i].tag in d && d[secs[i].tag] == Loc(secs[i].tag, off, |secs[i].data|)
            && off + |secs[i].data| <= |Body(secs)|
            && Body(secs)[off..off + |secs[i].data|] == secs[i].data
  {
    EnterHas(known, Locs(secs), i);
    SectionInBody(secs, i);
  }

  lemma {:induction false} PartsShorter(secs: seq<Section>, i: nat)
    requires i < |secs|
    ensures |secs[i].data| <= |Assemble(secs)|
  {
    SectionInBody(secs, i);
  }

  /** Opening an assembled container finds every known section where it was put. */
  lemma {:induction false} RoundTrip(known: set<Tag>, secs: seq<Section>, i: nat)
    requires DistinctTags(Locs(secs)) && |Assemble(secs)| < U32
    requires i < |secs| && secs[i].tag in known
    ensures var bytes := Assemble(secs); var d := ParseToc(known, bytes);
            && d.Ok? && secs[i].tag in d.value
            && var Loc(_, off, sz) := d.value[secs[i].tag];
               off + sz <= |bytes| && sz == |secs[i].data| && bytes[off..off + sz] == secs[i].data
  {
    TocFound(known, secs);
    SectionFound(known, secs, i);
    var off := |Body(secs[..i])|;
    assert Assemble(secs)[0..|Body(secs)|] == Body(secs);
    SubSlice(Assemble(secs), 0, Body(secs), off, off + |secs[i].data|);
  }

  lemma {:induction false} EntriesLong(locs: seq<Loc>)
    ensures |locs| <= |TocEntries(locs)|
    ensures forall l :: l in locs ==> |l.tag| <= |TocEntries(locs)|
  {
    if locs != [] { EntriesLong(locs[1..]); }
  }
}
