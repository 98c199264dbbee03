/** The write-ahead log of the overlay: frames, recovery, the log file, and the handle
    that keeps the log and the overlay in memory together. */
module Wal {
  import opened Prelude
  import opened Bytes
  import opened Overlay

  /** The serialization library, for log records. */
  datatype Codec = Codec(enc: WalRecord -> seq<byte>, dec: seq<byte> -> Option<WalRecord>)

  ghost predicate Lossless(c: Codec) { forall r :: c.dec(c.enc(r)) == Some(r) }

  /** Records whose bodies a 32-bit length can frame. */
  ghost predicate Framable(c: Codec, rs: seq<WalRecord>) { forall r :: r in rs ==> |c.enc(r)| < U32 }

  function Frame(c: Codec, r: WalRecord): seq<byte> { LE32(Cut32(|c.enc(r)|)) + c.enc(r) }

  function Log(c: Codec, rs: seq<WalRecord>): seq<byte> {
    if rs == [] then [] else Frame(c, rs[0]) + Log(c, rs[1..])
  }

  lemma {:induction false} LogConcat(c: Codec, a: seq<WalRecord>, b: seq<WalRecord>)
    ensures Log(c, a + b) == Log(c, a) + Log(c, b)
  {
    if a == [] {
      assert a + b == b;
    } else {
      assert (a + b)[1..] == a[1..] + b && (a + b)[0] == a[0];
      LogConcat(c, a[1..], b);
    }
  }

  /** The record whose frame begins at `p`, and where the frame ends; nothing when it is
      cut off or corrupt. */
  function Next(c: Codec, bytes: seq<byte>, p: nat): (r: Option<(WalRecord, nat)>)
    ensures r.Some? ==> p < r.value.1 <= |bytes|
  {
    if p + 4 > |bytes| then None
    else
      var e := p + 4 + Read(bytes, p, 4);
      if e > |bytes| then None
      else match c.dec(bytes[p + 4..e]) case None => None case Some(r) => Some((r, e))
  }

  /** The records from `p` on, up to the first frame that is cut off or corrupt. */
  function Decode(c: Codec, bytes: seq<byte>, p: nat): seq<WalRecord>
    decreases |bytes| - p
  {
    match Next(c, bytes, p) case None => [] case Some((r, e)) => [r] + Decode(c, bytes, e)
  }

  method DecodeRecords(c: Codec, bytes: seq<byte>) returns (out: seq<WalRecord>)
    ensures out == Decode(c, bytes, 0)
  {
    out := [];
    var p: nat := 0;
    while p + 4 <= |bytes|
      invariant Decode(c, bytes, 0) == out + Decode(c, bytes, p)
      decreases |bytes| - p
    {
      var n := Read(bytes, p, 4);
      ghost var was := p;
      p := p + 4;
      if p + n > |bytes| { return; }
      match c.dec(bytes[p..p + n]) {
        case Some(rec) =>
          DecodeNext(c, bytes, was, rec, p + n, out);
          out := out + [rec];
        case None => return;
      }
      p := p + n;
    }
  }

  lemma {:induction false} DecodeNext(c: Codec, bytes: seq<byte>, p: nat, rec: WalRecord, e: nat, out: seq<WalRecord>)
    requires Next(c, bytes, p) == Some((rec, e))
    ensures out + Decode(c, bytes, p) == out + [rec] + Decode(c, bytes, e)
  {
    assert out + ([rec] + Decode(c, bytes, e)) == out + [rec] + Decode(c, bytes, e);
  }

  // ---------------------------------------------------------------- recovery

  /** How many leading frames fit into `k` bytes. */
  function Whole(c: Codec, rs: seq<WalRecord>, k: nat): (m: nat)
    ensures m <= |rs|
  {
    if rs == [] || |Frame(c, rs[0])| > k then 0 else 1 + Whole(c, rs[1..], k - |Frame(c, rs[0])|)
  }

  lemma {:induction false} WholeExact(c: Codec, rs: seq<WalRecord>, k: nat)
    ensures var m := Whole(c, rs, k);
            |Log(c, rs[..m])| <= k && (m < |rs| ==> |Log(c, rs[..m + 1])| > k)
  {
    if rs != [] {
      var size := |Frame(c, rs[0])|;
      assert rs[..1] == [rs[0]] && [rs[0]][1..] == [];
      if size <= k {
        var m := Whole(c, rs[1..], k - size);
        WholeExact(c, rs[1..], k - size);
        assert rs[..m + 1][1..] == rs[1..][..m];
        if m + 1 < |rs| { assert rs[..m + 2][1..] == rs[1..][..m + 1]; }
      }
    }
  }

  /** A whole frame is read as its record. */
  lemma {:induction false} NextFrame(c: Codec, bytes: seq<byte>, p: nat, r: WalRecord, next: nat)
    requires c.dec(c.enc(r)) == Some(r) && |c.enc(r)| < U32
    requires next == p + |Frame(c, r)| <= |bytes| && bytes[p..next] == Frame(c, r)
    ensures Next(c, bytes, p) == Some((r, next))
  {
    WidthBounds();
    Halves(bytes, p, LE32(|c.enc(r)|), c.enc(r));
    ReadLittle(bytes, p, |c.enc(r)|, 4);
  }

  /** A frame that is cut off is not. */
  lemma {:induction false} NextTorn(c: Codec, bytes: seq<byte>, p: nat, r: WalRecord)
    requires |c.enc(r)| < U32 && p <= |bytes| < p + |Frame(c, r)| && bytes[p..] <= Frame(c, r)
    ensures Next(c, bytes, p) == None
  {
    if p + 4 <= |bytes| {
      WidthBounds();
      assert bytes[p..p + 4] == bytes[p..][..4] == Frame(c, r)[..4] == LE32(|c.enc(r)|);
      ReadLittle(bytes, p, |c.enc(r)|, 4);
    }
  }

  lemma {:induction false} DecodePrefix(c: Codec, rs: seq<WalRecord>, bytes: seq<byte>, p: nat)
    requires Lossless(c) && Framable(c, rs)
    requires p <= |bytes| && bytes[p..] <= Log(c, rs)
    ensures Decode(c, bytes, p) == rs[..Whole(c, rs, |bytes| - p)]
    decreases |rs|
  {
    if rs != [] {
      var r := rs[0];
      assert r in rs && c.dec(c.enc(r)) == Some(r);
      if |Frame(c, r)| > |bytes| - p {
        NextTorn(c, bytes, p, r);
      } else {
        var next := p + |Frame(c, r)|;
        PrefixBehind(c, rs, bytes, p, next);
        NextFrame(c, bytes, p, r, next);
        DecodePrefix(c, rs[1..], bytes, next);
        var m := Whole(c, rs[1..], |bytes| - next);
        assert rs[..m + 1] == [r] + rs[1..][..m];
      }
    }
  }

  lemma {:induction false} PrefixBehind(c: Codec, rs: seq<WalRecord>, bytes: seq<byte>, p: nat, next: nat)
    requires rs != [] && p <= next == p + |Frame(c, rs[0])| <= |bytes| && bytes[p..] <= Log(c, rs)
    ensures bytes[p..next] == Frame(c, rs[0]) && bytes[next..] <= Log(c, rs[1..])
  {
    var n := |Frame(c, rs[0])|;
    assert bytes[p..next] == bytes[p..][..n] == Log(c, rs)[..n];
    assert bytes[next..] == bytes[p..][n..] && Log(c, rs)[n..] == Log(c, rs[1..]);
  }

  /** Cut a log anywhere: recovery returns exactly the records whose frames are whole,
      in order. */
  lemma {:induction false} CutAnywhere(c: Codec, rs: seq<WalRecord>, k: nat)
    requires Lossless(c) && Framable(c, rs) && k <= |Log(c, rs)|
    ensures Decode(c, Log(c, rs)[..k], 0) == rs[..Whole(c, rs, k)]
  {
    var bytes := Log(c, rs)[..k];
    assert bytes[0..] == bytes;
    DecodePrefix(c, rs, bytes, 0);
  }

  /** Uncut, the whole log comes back. */
  lemma {:induction false} RoundTrip(c: Codec, rs: seq<WalRecord>)
    requires Lossless(c) && Framable(c, rs)
    ensures Decode(c, Log(c, rs), 0) == rs
  {
    var all := Log(c, rs);
    assert all[..|all|] == all;
    CutAnywhere(c, rs, |all|);
    WholeExact(c, rs, |all|);
    var m := Whole(c, rs, |all|);
    if m < |rs| { LogShorter(c, rs, m + 1); }
    assert rs[..|rs|] == rs;
  }

  lemma {:induction false} LogShorter(c: Codec, rs: seq<WalRecord>, m: nat)
    requires m <= |rs|
    ensures |Log(c, rs[..m])| <= |Log(c, rs)|
  {
    if m > 0 {
      assert rs[..m][1..] == rs[1..][..m - 1];
      LogShorter(c, rs[1..], m - 1);
    }
  }

  // ---------------------------------------------------------------- appending to a log

  /** Where the decoder stops. */
  function Stop(c: Codec, bytes: seq<byte>, p: nat): (q: nat)
    requires p <= |bytes|
    ensures p <= q <= |bytes|
    decreases |bytes| - p
  {
    match Next(c, bytes, p) case None => p case Some((_, e)) => Stop(c, bytes, e)
  }

  /** A file that ends with a whole frame. */
  predicate EndsWhole(c: Codec, file: seq<byte>) { Stop(c, file, 0) == |file| }

  lemma {:induction false} NextStays(c: Codec, bytes: seq<byte>, more: seq<byte>, p: nat)
    requires Next(c, bytes, p).Some?
    ensures Next(c, bytes + more, p) == Next(c, bytes, p)
  {
    var e := p + 4 + Read(bytes, p, 4);
    assert (bytes + more)[p..p + 4] == bytes[p..p + 4];
    assert (bytes + more)[p + 4..e] == bytes[p + 4..e];
  }

  lemma {:induction false} StopOn(c: Codec, bytes: seq<byte>, more: seq<byte>, p: nat)
    requires p <= |bytes|
    ensures Stop(c, bytes + more, p) == Stop(c, bytes + more, Stop(c, bytes, p))
    decreases |bytes| - p
  {
    match Next(c, bytes, p)
    case None =>
    case Some((_, e)) =>
      NextStays(c, bytes, more, p);
      StopOn(c, bytes, more, e);
  }

  /** The whole frames are read as before, whatever is appended. */
  lemma {:induction false} DecodeOn(c: Codec, bytes: seq<byte>, more: seq<byte>, p: nat)
    requires p <= |bytes|
    ensures Decode(c, bytes + more, p) == Decode(c, bytes, p) + Decode(c, bytes + more, Stop(c, bytes, p))
    ensures Stop(c, bytes + more, p) == Stop(c, bytes + more, Stop(c, bytes, p))
    decreases |bytes| - p
  {
    StopOn(c, bytes, more, p);
    match Next(c, bytes, p)
    case None =>
    case Some((r, e)) =>
      var all := bytes + more;
      assert Next(c, all, p) == Some((r, e)) by { NextStays(c, bytes, more, p); }
      DecodeOn(c, bytes, more, e);
      var front, tail := Decode(c, bytes, e), Decode(c, all, Stop(c, bytes, e));
      assert [r] + (front + tail) == [r] + front + tail;
  }

  lemma {:induction false} NextShifted(c: Codec, bytes: seq<byte>, more: seq<byte>, p: nat, at: nat)
    requires p <= |more| && at == |bytes| + p
    ensures Next(c, bytes + more, at)
         == match Next(c, more, p) case None => None case Some((r, e)) => Some((r, |bytes| + e))
  {
    if p + 4 <= |more| {
      assert (bytes + more)[at..at + 4] == more[p..p + 4];
      var e := p + 4 + Read(more, p, 4);
      if e <= |more| { assert (bytes + more)[at + 4..|bytes| + e] == more[p + 4..e]; }
    }
  }

  lemma {:induction false} DecodeShifted(c: Codec, bytes: seq<byte>, more: seq<byte>, p: nat)
    requires p <= |more|
    ensures Decode(c, bytes + more, |bytes| + p) == Decode(c, more, p)
    ensures Stop(c, bytes + more, |bytes| + p) == |bytes| + Stop(c, more, p)
    decreases |more| - p
  {
    NextShifted(c, bytes, more, p, |bytes| + p);
    match Next(c, more, p)
    case None =>
    case Some((_, e)) => DecodeShifted(c, bytes, more, e);
  }

  /** What a recovery finds after an append: the records that it found before, and what
      the bytes behind the last whole frame make with the appended ones. */
  lemma {:induction false} AppendedDecode(c: Codec, file: seq<byte>, more: seq<byte>)
    ensures Decode(c, file + more, 0) == Decode(c, file, 0) + Decode(c, file[Stop(c, file, 0)..] + more, 0)
  {
    DecodeOn(c, file, more, 0);
    DecodeFrom(c, file, more, Stop(c, file, 0));
  }

  lemma {:induction false} DecodeFrom(c: Codec, file: seq<byte>, more: seq<byte>, q: nat)
    requires q <= |file|
    ensures Decode(c, file + more, q) == Decode(c, file[q..] + more, 0)
  {
    var front, rest := file[..q], file[q..] + more;
    assert front + rest == file + more;
    DecodeShifted(c, front, rest, 0);
  }

  lemma {:induction false} LogEndsWhole(c: Codec, rs: seq<WalRecord>)
    requires Lossless(c) && Framable(c, rs)
    ensures EndsWhole(c, Log(c, rs))
  {
    if rs != [] {
      var first, rest := Frame(c, rs[0]), Log(c, rs[1..]);
      assert rs[0] in rs && c.dec(c.enc(rs[0])) == Some(rs[0]);
      LogEndsWhole(c, rs[1..]);
      NextFrame(c, first + rest, 0, rs[0], |first|);
      DecodeShifted(c, first, rest, 0);
    }
  }

  /** Bytes that do not begin with a whole frame: too few for a length, fewer than the length
      says, or a record that does not decode. */
  predicate Broken(c: Codec, b: seq<byte>) {
    |b| < 4 || |b| < 4 + Read(b, 0, 4) || c.dec(b[4..4 + Read(b, 0, 4)]).None?
  }

  /** Decoding ends there, whatever follows, and keeps what came before. */
  lemma {:induction false} StopsAtBroken(c: Codec, rs: seq<WalRecord>, b: seq<byte>)
    requires Lossless(c) && Framable(c, rs) && Broken(c, b)
    ensures Decode(c, Log(c, rs) + b, 0) == rs
  {
    var log := Log(c, rs);
    RoundTrip(c, rs);
    LogEndsWhole(c, rs);
    AppendedDecode(c, log, b);
    assert log[|log|..] + b == b;
    assert Next(c, b, 0) == None;
  }

  /** Behind a whole frame, an append loses nothing. */
  lemma {:induction false} AppendWhole(c: Codec, file: seq<byte>, rs: seq<WalRecord>)
    requires Lossless(c) && Framable(c, rs) && EndsWhole(c, file)
    ensures Decode(c, file + Log(c, rs), 0) == Decode(c, file, 0) + rs && EndsWhole(c, file + Log(c, rs))
  {
    var more := Log(c, rs);
    DecodeOn(c, file, more, 0);
    DecodeShifted(c, file, more, 0);
    RoundTrip(c, rs);
    LogEndsWhole(c, rs);
  }

  /** Two records whose short encodings differ in the last byte alone. */
  ghost predicate Twins(c: Codec, r: WalRecord, s: WalRecord) {
    && r != s && 1 <= |c.enc(r)| == |c.enc(s)| < 256
    && c.enc(r)[..|c.enc(r)| - 1] == c.enc(s)[..|c.enc(r)| - 1]
  }

  lemma {:induction false} FromLittle4(b: seq<byte>)
    requires |b| == 4
    ensures FromLittle(b) == b[0] as int + 256 * b[1] as int + 65536 * b[2] as int + 16777216 * b[3] as int
  {
    assert FromLittle(b[1..]) == b[1] as int + 256 * FromLittle(b[1..][1..]);
    assert FromLittle(b[1..][1..]) == b[2] as int + 256 * FromLittle(b[1..][1..][1..]);
    assert b[1..][1..][1..] == [b[3]] && FromLittle([b[3]]) == b[3] as int + 256 * FromLittle([b[3]][1..]);
  }

  lemma {:induction false} ShortHeader(n: nat)
    requires n < 256
    ensures LE32(n) == [n, 0, 0, 0]
  {
    var zero: byte := 0;
    assert Little(0, 1) == [zero] + Little(0, 0) && Little(0, 2) == [zero] + Little(0, 1);
    assert Little(0, 3) == [zero] + Little(0, 2);
  }

  /** A header torn before its end is completed by the length of the next record, and
      then asks for more than there is. */
  lemma {:induction false} TornHeader(c: Codec, rest: seq<byte>, r: WalRecord)
    requires 1 <= |rest| < 4 && 1 <= |c.enc(r)| < 256
    ensures Read(rest + Frame(c, r), 0, 4) != |rest| + |c.enc(r)|
  {
    var x, e := rest + Frame(c, r), |c.enc(r)|;
    ShortHeader(e);
    FromLittle4(x[0..4]);
    assert x[|rest|] == e && x[|rest| + 1] == 0 && x[|rest| + 2] == 0;
  }

  /** The first record behind a torn frame. */
  lemma {:induction false} FirstBehind(c: Codec, x: seq<byte>, r: WalRecord)
    requires Decode(c, x, 0) == [r]
    ensures |x| >= 4 && 4 + Read(x, 0, 4) <= |x| && c.dec(x[4..4 + Read(x, 0, 4)]) == Some(r)
  {
    assert Decode(c, x, 0)[0] == r;
  }

  lemma {:induction false} SameBefore(x: seq<byte>, y: seq<byte>, last: nat, e: nat)
    requires 4 <= e <= last <= |x| && last <= |y| && x[..last] == y[..last]
    ensures Read(x, 0, 4) == Read(y, 0, 4) && x[4..e] == y[4..e]
  {
    assert x[0..4] == x[..last][0..4] && y[0..4] == y[..last][0..4];
    assert x[4..e] == x[..last][4..e] && y[4..e] == y[..last][4..e];
  }

  /** If twins both come back behind a torn frame, then the frame asks for just as many
      bytes as they have. */
  lemma {:induction false} TwinsBehind(c: Codec, rest: seq<byte>, r: WalRecord, s: WalRecord)
    requires Twins(c, r, s) && rest != []
    requires Decode(c, rest + Frame(c, r), 0) == [r] && Decode(c, rest + Frame(c, s), 0) == [s]
    ensures |rest| >= 4 && Read(rest, 0, 4) == |rest| + |c.enc(r)|
  {
    var x, y := rest + Frame(c, r), rest + Frame(c, s);
    var last := |x| - 1;
    TwinsAgree(c, rest, r, s);
    FirstBehind(c, x, r);
    FirstBehind(c, y, s);
    var e := 4 + Read(x, 0, 4);
    SameBefore(x, y, last, if e <= last then e else 4);
    if |rest| < 4 { TornHeader(c, rest, r); } else { assert x[0..4] == rest[0..4]; }
  }

  lemma {:induction false} TwinsAgree(c: Codec, rest: seq<byte>, r: WalRecord, s: WalRecord)
    requires Twins(c, r, s)
    ensures var x, y := rest + Frame(c, r), rest + Frame(c, s); |x| == |y| && x[..|x| - 1] == y[..|x| - 1]
  {
    var n := |c.enc(r)| - 1;
    var x, y, head := rest + Frame(c, r), rest + Frame(c, s), rest + LE32(Cut32(|c.enc(r)|));
    assert x[..|x| - 1] == head + c.enc(r)[..n] && y[..|x| - 1] == head + c.enc(s)[..n];
  }

  lemma {:induction false} LogOne(c: Codec, r: WalRecord)
    ensures Log(c, [r]) == Frame(c, r)
  {
    assert [r][1..] == [] && Frame(c, r) + [] == Frame(c, r);
  }

  /** What appending `r` alone gives. */
  lemma {:induction false} OneAppended(c: Codec, file: seq<byte>, r: WalRecord)
    requires Decode(c, file + Log(c, [r]), 0) == Decode(c, file, 0) + [r]
    ensures Decode(c, file[Stop(c, file, 0)..] + Frame(c, r), 0) == [r]
  {
    AppendedDecode(c, file, Log(c, [r]));
    LogOne(c, r);
    var a, b := Decode(c, file, 0), Decode(c, file[Stop(c, file, 0)..] + Frame(c, r), 0);
    assert (a + b)[|a|..] == b && (a + [r])[|a|..] == [r];
  }

  /** Reopening a log loses nothing of what is appended later if and only if it ends
      with a whole frame: for any codec with twins of two lengths, which is what tells
      records apart behind a torn frame. */
  lemma {:induction false} AppendIff(c: Codec, file: seq<byte>, r: WalRecord, s: WalRecord, t: WalRecord, u: WalRecord)
    requires Lossless(c) && Twins(c, r, s) && Twins(c, t, u) && |c.enc(r)| != |c.enc(t)|
    ensures EndsWhole(c, file) <==>
      forall rs :: Framable(c, rs) ==> Decode(c, file + Log(c, rs), 0) == Decode(c, file, 0) + rs
  {
    if EndsWhole(c, file) {
      forall rs | Framable(c, rs) ensures Decode(c, file + Log(c, rs), 0) == Decode(c, file, 0) + rs {
        AppendWhole(c, file, rs);
      }
    } else if forall rs :: Framable(c, rs) ==> Decode(c, file + Log(c, rs), 0) == Decode(c, file, 0) + rs {
      var rest := file[Stop(c, file, 0)..];
      forall x | x == r || x == s || x == t || x == u ensures Decode(c, rest + Frame(c, x), 0) == [x] {
        assert Framable(c, [x]);
        OneAppended(c, file, x);
      }
      TwinsBehind(c, rest, r, s);
      TwinsBehind(c, rest, t, u);
      assert false;
    }
  }

  // ---------------------------------------------------------------- the log file

  /** The log file, opened for appending. */
  class OverlayStore {
    const c: Codec
    var file: seq<byte>

    constructor (c: Codec, existing: seq<byte>)
      ensures this.c == c && file == existing
    {
      this.c, file := c, existing;
    }

    method Append(rec: WalRecord)
      modifies this
      ensures file == old(file) + Frame(c, rec)
    {
      var body := c.enc(rec);
      var bytes := LE32(Cut32(|body|));
      bytes := bytes + body;
      file := file + bytes;
    }

    method Truncate()
      modifies this
      ensures file == []
    {
      file := [];
    }
  }

  method Recover(c: Codec, file: Option<seq<byte>>) returns (recs: seq<WalRecord>)
    ensures recs == if file.Some? then Decode(c, file.value, 0) else []
  {
    if file.None? { return []; }
    recs := DecodeRecords(c, file.value);
  }

  /** The overlay in memory and its log.  The overlay object is replaced, never
      changed, so a query keeps the snapshot it took. */
  class OverlayHandle {
    var data: Overlay
    const store: OverlayStore?
    ghost var log: seq<WalRecord>

    /** The overlay in memory is the replay of the records so far. */
    ghost predicate Valid()
      reads this, data
    {
      data.Valid() && data.View() == Replay(map[], log)
    }

    /** A recovery of the file, if there is one, finds exactly these records, and
        appending to it loses nothing. */
    ghost predicate Synced()
      reads this, store
    {
      store != null ==> Decode(store.c, store.file, 0) == log && EndsWhole(store.c, store.file)
    }

    constructor (c: Codec, file: Option<seq<byte>>, writable: bool)
      ensures Valid() && fresh(data) && (store != null ==> fresh(store) && store.c == c)
      ensures writable <==> store != null
      ensures log == if file.Some? then Decode(c, file.value, 0) else []
      ensures writable ==> store.file == if file.Some? then file.value else []
      ensures Synced() <==> (writable && file.Some? ==> EndsWhole(c, file.value))
    {
      var recs := Recover(c, file);
      var o := new Overlay();
      o.ApplyRecords(recs);
      var s: OverlayStore? := null;
      if writable {
        s := new OverlayStore(c, if file.Some? then file.value else []);
      }
      data, store, log := o, s, recs;
    }

    method RecordAndApply(recs: seq<WalRecord>)
      requires Valid()
      modifies this, store
      ensures Valid() && fresh(data) && log == old(log) + recs
      ensures data.View() == Replay(old(data.View()), recs)
      ensures store != null ==> store.file == old(store.file) + Log(store.c, recs)
      ensures old(Synced()) && (store != null ==> Lossless(store.c) && Framable(store.c, recs)) ==> Synced()
    {
      if store != null {
        if Lossless(store.c) && Framable(store.c, recs) && EndsWhole(store.c, store.file) {
          AppendWhole(store.c, store.file, recs);
        }
        AppendAll(recs);
      }
      var next := data.Clone();
      next.ApplyRecords(recs);
      ReplayAppend(map[], log, recs);
      data := next;
      log := log + recs;
    }

    method AppendAll(recs: seq<WalRecord>)
      requires store != null
      modifies store
      ensures store.file == old(store.file) + Log(store.c, recs)
    {
      for i := 0 to |recs|
        invariant store.file == old(store.file) + Log(store.c, recs[..i])
      {
        store.Append(recs[i]);
        LogConcat(store.c, recs[..i], [recs[i]]);
        assert recs[..i + 1] == recs[..i] + [recs[i]];
        assert [recs[i]][1..] == [] && Log(store.c, [recs[i]]) == Frame(store.c, recs[i]) + [];
      }
      assert recs[..|recs|] == recs;
    }

    /** Drops what a rebuild has taken over, in memory and on disk. */
    method Clear()
      requires Valid()
      modifies this, store
      ensures Valid() && Synced() && fresh(data) && log == [] && data.View() == map[]
    {
      if store != null { store.Truncate(); }
      data := new Overlay();
      log := [];
    }
  }

  /** After a crash at any byte of the log, the handle reopens with the overlay that
      the whole frames describe. */
  lemma {:induction false} CrashRecovery(c: Codec, log: seq<WalRecord>, k: nat)
    requires Lossless(c) && Framable(c, log) && k <= |Log(c, log)|
    ensures var m := Whole(c, log, k);
            Replay(map[], Decode(c, Log(c, log)[..k], 0)) == Replay(map[], log[..m])
    ensures k == |Log(c, log)| ==> Replay(map[], Decode(c, Log(c, log)[..k], 0)) == Replay(map[], log)
  {
    CutAnywhere(c, log, k);
    if k == |Log(c, log)| {
      RoundTrip(c, log);
      assert Log(c, log)[..k] == Log(c, log);
    }
  }
}
