/** The per-document records both file formats share: length-prefixed paths and
    17-byte metadata. */
module Records {
  import opened Prelude
  import opened Bytes

  datatype LiteMeta = LiteMeta(isDir: bool, size: i64, mtime: i64)

  const META_LEN: nat := 17

  // ---------------------------------------------------------------- paths

  function PathRecord(path: seq<byte>): seq<byte> { LE32(Cut32(|path|)) + path }

  function PathRecords(paths: seq<seq<byte>>): seq<byte> {
    if paths == [] then [] else PathRecord(paths[0]) + PathRecords(paths[1..])
  }

  function AsString(s: seq<byte>): Result<Str> { if Utf8(s) then Ok(s) else Err(DbFormat) }

  /** The `local`-th path of a run of records. */
  function ExtractPath(block: seq<byte>, p: nat, local: nat): Result<Str>
    decreases local
  {
    if p + 4 > |block| then Err(DbFormat)
    else
      var len := Read(block, p, 4);
      if p + 4 + len > |block| then Err(DbFormat)
      else if local == 0 then AsString(block[p + 4..p + 4 + len])
      else ExtractPath(block, p + 4 + len, local - 1)
  }

  method FindPath(block: seq<byte>, local: nat) returns (r: Result<Str>)
    ensures r == ExtractPath(block, 0, local)
  {
    var p: nat, j: nat := 0, 0;
    while true
      invariant j <= local && ExtractPath(block, 0, local) == ExtractPath(block, p, local - j)
      decreases local - j
    {
      if p + 4 > |block| { return Err(DbFormat); }
      var len := Read(block, p, 4);
      p := p + 4;
      if p + len > |block| { return Err(DbFormat); }
      if j == local { return AsString(block[p..p + len]); }
      p := p + len;
      j := j + 1;
    }
  }

  lemma {:induction false} RecordParts(block: seq<byte>, p: nat, q: seq<byte>, rest: seq<byte>)
    requires |q| < U32 && p <= |block| && block[p..] == PathRecord(q) + rest
    ensures p + 4 + |q| <= |block| && Read(block, p, 4) == |q|
    ensures block[p + 4..p + 4 + |q|] == q && block[p + 4 + |q|..] == rest
  {
    WidthBounds();
    Halves(block, p, LE32(|q|) + q, rest);
    Halves(block, p, LE32(|q|), q);
    ReadLittle(block, p, |q|, 4);
  }

  /** Record `d`, if it is a string. */
  lemma {:induction false} ExtractAny(block: seq<byte>, p: nat, paths: seq<seq<byte>>, d: nat)
    requires p <= |block| && block[p..] == PathRecords(paths)
    requires forall q :: q in paths ==> |q| < U32
    ensures ExtractPath(block, p, d) == if d < |paths| && Utf8(paths[d]) then Ok(paths[d]) else Err(DbFormat)
    decreases |paths|
  {
    if paths != [] {
      var q, rest := paths[0], paths[1..];
      assert q in paths;
      RecordParts(block, p, q, PathRecords(rest));
      var next: nat := p + 4 + |q|;
      if d > 0 { ExtractAny(block, next, rest, d - 1); }
    }
  }

  /** Reading record `d` gives back path `d`, and behind the last one an error. */
  lemma {:induction false} ExtractExact(block: seq<byte>, p: nat, paths: seq<Str>, d: nat)
    requires p <= |block| && block[p..] == PathRecords(paths)
    requires forall q :: q in paths ==> |q| < U32
    ensures ExtractPath(block, p, d) == if d < |paths| then Ok(paths[d]) else Err(DbFormat)
  {
    ExtractAny(block, p, paths, d);
  }

  lemma {:induction false} PathRecordsAppend(paths: seq<seq<byte>>, q: seq<byte>)
    ensures PathRecords(paths + [q]) == PathRecords(paths) + PathRecord(q)
  {
    if paths == [] {
      assert [q][1..] == [];
    } else {
      assert (paths + [q])[1..] == paths[1..] + [q];
      PathRecordsAppend(paths[1..], q);
    }
  }

  method WritePaths(paths: seq<seq<byte>>) returns (out: seq<byte>)
    ensures out == PathRecords(paths)
  {
    out := [];
    for i := 0 to |paths|
      invariant out == PathRecords(paths[..i])
    {
      assert paths[..i + 1] == paths[..i] + [paths[i]];
      PathRecordsAppend(paths[..i], paths[i]);
      out := out + LE32(Cut32(|paths[i]|));
      out := out + paths[i];
    }
    assert paths[..|paths|] == paths;
  }

  lemma {:induction false} PathFits(paths: seq<seq<byte>>, q: seq<byte>)
    requires q in paths
    ensures |q| + 4 <= |PathRecords(paths)|
  {
    if q != paths[0] { PathFits(paths[1..], q); }
  }

  lemma {:induction false} PathCountFits(paths: seq<seq<byte>>)
    ensures 4 * |paths| <= |PathRecords(paths)|
  {
    if paths != [] { PathCountFits(paths[1..]); }
  }

  // ---------------------------------------------------------------- metadata

  function MetaRecord(m: LiteMeta): (b: seq<byte>)
    ensures |b| == META_LEN
  {
    [if m.isDir then 1 else 0] + LEi64(m.size) + LEi64(m.mtime)
  }

  function MetaRecords(metas: seq<LiteMeta>): (b: seq<byte>)
    ensures |b| == META_LEN * |metas|
  {
    if metas == [] then [] else MetaRecords(metas[..|metas| - 1]) + MetaRecord(metas[|metas| - 1])
  }

  function ReadMeta(buf: seq<byte>, at: nat): LiteMeta
    requires at + META_LEN <= |buf|
  {
    LiteMeta(buf[at] != 0, FromLEi64(buf[at + 1..at + 9]), FromLEi64(buf[at + 9..at + 17]))
  }

  lemma {:induction false} MetaRoundTrip(buf: seq<byte>, at: nat, m: LiteMeta)
    requires at + META_LEN <= |buf| && buf[at..at + META_LEN] == MetaRecord(m)
    ensures ReadMeta(buf, at) == m
  {
    var flag: seq<byte> := [if m.isDir then 1 else 0];
    Halves(buf, at, flag + LEi64(m.size), LEi64(m.mtime));
    Halves(buf, at, flag, LEi64(m.size));
    assert buf[at..at + 1][0] == flag[0];
    I64RoundTrip(m.size);
    I64RoundTrip(m.mtime);
  }

  lemma {:induction false} MetaAt(metas: seq<LiteMeta>, d: nat)
    requires d < |metas|
    ensures MetaRecords(metas)[META_LEN * d..META_LEN * d + META_LEN] == MetaRecord(metas[d])
  {
    if d < |metas| - 1 {
      var front := metas[..|metas| - 1];
      MetaAt(front, d);
      SubSlice(MetaRecords(metas), 0, MetaRecords(front), META_LEN * d, META_LEN * d + META_LEN);
    }
  }

  /** Metadata record `d` of a run that starts at `base` reads back as `metas[d]`. */
  lemma {:induction false} MetaExact(buf: seq<byte>, base: nat, metas: seq<LiteMeta>, d: nat)
    requires d < |metas| && base + META_LEN * |metas| <= |buf|
    requires buf[base..base + META_LEN * |metas|] == MetaRecords(metas)
    ensures ReadMeta(buf, base + META_LEN * d) == metas[d]
  {
    MetaAt(metas, d);
    var from := META_LEN * d;
    SubSlice(buf, base, MetaRecords(metas), from, from + META_LEN);
    assert buf[base + from..base + from + META_LEN] == MetaRecord(metas[d]);
    MetaRoundTrip(buf, base + from, metas[d]);
  }

  method WriteMetas(metas: seq<LiteMeta>) returns (out: seq<byte>)
    ensures out == MetaRecords(metas)
  {
    out := [];
    for i := 0 to |metas|
      invariant out == MetaRecords(metas[..i])
    {
      assert metas[..i + 1][..i] == metas[..i];
      out := out + [if metas[i].isDir then 1 else 0];
      out := out + LEi64(metas[i].size);
      out := out + LEi64(metas[i].mtime);
    }
    assert metas[..|metas|] == metas;
  }
}
