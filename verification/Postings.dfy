/** Posting lists on disk: delta coding, the entry table over them, and the
    lookup that leads from a trigram to its documents. */
module Postings {
  import opened Prelude
  import opened Bytes
  import opened Bits
  import Text
  import TurboPFor
  import opened RobinHood
  import opened TrigramIndex

  type u32 = TurboPFor.u32

  // ---------------------------------------------------------------- deltas

  /** Document ids run below the largest 32-bit number, which counts them. */
  const MAX_DOCS: nat := 0xFFFF_FFFF

  /** A posting list that `Deltas` can take: ascending ids from `prev` on. */
  ghost predicate Codable(post: seq<nat>, prev: nat) {
    Ascending(post) && forall d :: d in post ==> prev <= d < MAX_DOCS
  }

  function Deltas(post: seq<nat>, prev: nat): (deltas: seq<u32>)
    requires Codable(post, prev)
    ensures |deltas| == |post|
  {
    if post == [] then []
    else
      assert post[0] in post;
      DropFirst(post, prev);
      [post[0] - prev] + Deltas(post[1..], post[0])
  }

  lemma {:induction false} DropFirst(post: seq<nat>, prev: nat)
    requires Codable(post, prev) && post != []
    ensures Codable(post[1..], post[0])
  {
    forall d | d in post[1..] ensures post[0] <= d < MAX_DOCS {
      assert d in post by { var k :| 0 <= k < |post[1..]| && post[1..][k] == d; assert post[k + 1] == d; }
      var i :| 0 <= i < |post[1..]| && post[1..][i] == d;
      assert post[i + 1] == d && post[0] < post[i + 1];
    }
  }

  /** Running sums; a sum past 32 bits is a codec error. */
  function Sums(deltas: seq<u32>, prev: nat): Result<seq<nat>> {
    if deltas == [] then Ok([])
    else if prev + deltas[0] >= U32 then Err(Codec)
    else
      match Sums(deltas[1..], prev + deltas[0])
      case Err(e) => Err(e)
      case Ok(rest) => Ok([prev + deltas[0]] + rest)
  }

  lemma {:induction false} SumsOfDeltas(post: seq<nat>, prev: nat)
    requires Codable(post, prev)
    ensures Sums(Deltas(post, prev), prev) == Ok(post)
  {
    if post != [] {
      assert post[0] in post;
      DropFirst(post, prev);
      SumsOfDeltas(post[1..], post[0]);
      assert Deltas(post, prev)[1..] == Deltas(post[1..], post[0]);
      assert [post[0]] + post[1..] == post;
    }
  }

  method ComputeDeltas(post: seq<nat>) returns (deltas: seq<u32>)
    requires Codable(post, 0)
    ensures deltas == Deltas(post, 0)
  {
    deltas := [];
    var prev: nat := 0;
    assert post[0..] == post;
    for i := 0 to |post|
      invariant Codable(post[i..], prev)
      invariant deltas + Deltas(post[i..], prev) == Deltas(post, 0)
    {
      assert post[i] == post[i..][0] && post[i..][0] in post[i..];
      DropFirst(post[i..], prev);
      assert post[i..][1..] == post[i + 1..];
      ghost var rest := Deltas(post[i + 1..], post[i]);
      assert deltas + ([post[i] - prev] + rest) == deltas + [post[i] - prev] + rest;
      deltas := deltas + [post[i] - prev];
      prev := post[i];
    }
  }

  method ComputeSums(deltas: seq<u32>) returns (r: Result<seq<nat>>)
    ensures r == Sums(deltas, 0)
  {
    var post: seq<nat> := [];
    var prev: nat := 0;
    assert deltas[0..] == deltas;
    assert Sums(deltas, 0).Ok? ==> [] + Sums(deltas, 0).value == Sums(deltas, 0).value;
    for i := 0 to |deltas|
      invariant Sums(deltas, 0) == After(post, Sums(deltas[i..], prev))
    {
      assert deltas[i..][1..] == deltas[i + 1..];
      ghost var rest := Sums(deltas[i + 1..], prev + deltas[i]);
      if prev + deltas[i] >= U32 { return Err(Codec); }
      prev := prev + deltas[i];
      assert rest.Ok? ==> post + ([prev] + rest.value) == post + [prev] + rest.value;
      post := post + [prev];
    }
    assert post + [] == post;
    return Ok(post);
  }

  function After(post: seq<nat>, rest: Result<seq<nat>>): Result<seq<nat>> {
    match rest case Err(e) => Err(e) case Ok(s) => Ok(post + s)
  }

  /** Delta coding and the block codec together lose nothing. */
  lemma {:induction false} PostingRoundTrip(post: seq<nat>)
    requires Codable(post, 0)
    ensures var enc := TurboPFor.Encode(Deltas(post, 0));
            var dec := TurboPFor.Decode(enc, |post|);
            dec.Some? && Sums(dec.value, 0) == Ok(post)
  {
    TurboPFor.RoundTrip(Deltas(post, 0));
    SumsOfDeltas(post, 0);
  }

  // ---------------------------------------------------------------- writing

  /** `next_power_of_two`, as the exponent that `trailing_zeros` reads off. */
  function CeilLog2(x: nat): (k: nat)
    ensures Pow2(k) >= x
    ensures k > 0 ==> Pow2(k - 1) < x
  {
    if x <= 1 then 0 else 1 + CeilLog2((x + 1) / 2)
  }

  lemma {:induction false} CeilLog2Bound(x: nat, k: nat)
    requires x <= Pow2(k)
    ensures CeilLog2(x) <= k
  {
    if x > 1 { CeilLog2Bound((x + 1) / 2, k - 1); }
  }

  /** An index whose keys and lists fit the record formats. */
  ghost predicate Storing(m: Index) {
    forall t :: t in m ==> t < EMPTY_KEY && Codable(m[t], 0)
  }

  /** Record `s` points at the encoding of `post`, `base` bytes before `sec`. */
  ghost predicate PointsAt(s: Slot, sec: seq<byte>, base: nat, post: seq<nat>) {
    && Codable(post, 0) && s.count == |post|
    && base <= s.off && s.off - base + s.len <= |sec|
    && sec[s.off - base..s.off - base + s.len] == TurboPFor.Encode(Deltas(post, 0))
  }

  /** The records of an index over the posting section `sec` at file offset `base`. */
  ghost predicate Records(entries: seq<Slot>, sec: seq<byte>, base: nat, m: Index) {
    && (forall s :: s in entries ==> s.key in m && PointsAt(s, sec, base, m[s.key]))
    && forall t :: t in m ==> exists s :: s in entries && s.key == t
  }

  /** A trigram index fits the record formats. */
  lemma {:induction false} StoringTexts(m: Index, texts: seq<seq<byte>>)
    requires Indexes(m, texts) && |texts| <= MAX_DOCS
    ensures Storing(m)
  {
    forall t | t in m ensures t < EMPTY_KEY && Codable(m[t], 0) {
      assert Entry(m, t, PostingOf(texts, t));
      PostingExact(texts, t);
      assert m[t][0] in m[t];
      Text.TrigramBound(texts[m[t][0]], t);
    }
  }

  function Encoded(post: seq<nat>): seq<byte>
    requires Codable(post, 0)
  {
    TurboPFor.Encode(Deltas(post, 0))
  }

  /** Every encoded list is short enough for the 32-bit length of its record. */
  ghost predicate ListsFit(m: Index) {
    forall t :: t in m ==> Codable(m[t], 0) && |Encoded(m[t])| < U32
  }

  lemma {:induction false} PointsAtLonger(s: Slot, sec: seq<byte>, more: seq<byte>, base: nat, post: seq<nat>)
    requires PointsAt(s, sec, base, post)
    ensures PointsAt(s, sec + more, base, post)
  {
    var from := s.off - base;
    assert (sec + more)[from..from + s.len] == sec[from..from + s.len];
  }

  lemma {:induction false} PointsAtInFile(s: Slot, sec: seq<byte>, base: nat, post: seq<nat>, file: seq<byte>)
    requires PointsAt(s, sec, base, post)
    requires base + |sec| <= |file| && file[base..base + |sec|] == sec
    ensures PointsAt(s, file, 0, post)
  {
    var from := s.off - base;
    SubSlice(file, base, sec, from, from + s.len);
    assert base + from == s.off;
  }

  /** Seen from the start of a file that holds the section at `base`, the records
      point at the same lists. */
  lemma {:induction false} Relocate(entries: seq<Slot>, sec: seq<byte>, base: nat, m: Index, file: seq<byte>)
    requires Records(entries, sec, base, m)
    requires base + |sec| <= |file| && file[base..base + |sec|] == sec
    ensures Records(entries, file, 0, m)
  {
    forall s | s in entries ensures s.key in m && PointsAt(s, file, 0, m[s.key]) {
      PointsAtInFile(s, sec, base, m[s.key], file);
    }
  }

  /** The lists of `done`, a part of `m`, have been written with their records. */
  ghost predicate Written(entries: seq<Slot>, sec: seq<byte>, base: nat, m: Index, done: Index) {
    && Entries(entries) && |entries| == |done|
    && (forall t :: t in done ==> t in m && done[t] == m[t] && Codable(m[t], 0) && |Encoded(m[t])| <= |sec|)
    && (forall s :: s in entries ==> s.key in done)
    && (base + |sec| < U64 && ListsFit(m) ==> Records(entries, sec, base, done))
  }

  lemma {:induction false} EntriesStep(entries: seq<Slot>, s: Slot, done: Index, post: seq<nat>)
    requires Entries(entries) && Storable(s) && Occupied(s) && s.key !in done
    requires forall r :: r in entries ==> r.key in done
    ensures Entries(entries + [s]) && forall r :: r in entries + [s] ==> r.key in done[s.key := post]
  {
    var all := entries + [s];
    forall i, j | 0 <= i < j < |all| ensures all[i].key != all[j].key {
      if j == |entries| { assert entries[i] in entries; }
    }
  }

  lemma {:induction false} WrittenStep(entries: seq<Slot>, sec: seq<byte>, base: nat, m: Index, done: Index, s: Slot,
      enc: seq<byte>)
    requires Written(entries, sec, base, m, done) && Storable(s) && Occupied(s)
    requires s.key in m && s.key !in done && Codable(m[s.key], 0) && enc == Encoded(m[s.key])
    requires s.count == Cut32(|m[s.key]|) && s.off == Cut64(base + |sec|) && s.len == Cut32(|enc|)
    ensures Written(entries + [s], sec + enc, base, m, done[s.key := m[s.key]])
  {
    OneMore(entries, sec, base, done, s, m, enc);
    EntriesStep(entries, s, done, m[s.key]);
    var done' := done[s.key := m[s.key]];
    forall t | t in done' ensures t in m && done'[t] == m[t] && Codable(m[t], 0) && |Encoded(m[t])| <= |sec + enc| {
      assert t in done || t == s.key;
    }
  }

  /** One list and its record.  Offsets and lengths are cut to their field widths. */
  method WriteList(m: Index, key: nat, base: nat, entries0: seq<Slot>, sec0: seq<byte>, ghost done: Index)
    returns (entries: seq<Slot>, sec: seq<byte>)
    requires Storing(m) && key in m && key !in done && Written(entries0, sec0, base, m, done)
    ensures Written(entries, sec, base, m, done[key := m[key]])
  {
    var deltas := ComputeDeltas(m[key]);
    var enc := TurboPFor.EncodeU32s(deltas);
    var s := Slot(key, Cut32(|m[key]|), Cut64(base + |sec0|), Cut32(|enc|));
    WrittenStep(entries0, sec0, base, m, done, s, enc);
    entries := entries0 + [s];
    sec := sec0 + enc;
  }

  ghost function Without(m: Index, left: set<nat>): Index {
    map t | t in m && t !in left :: m[t]
  }

  lemma {:induction false} WithoutStep(m: Index, left: set<nat>, key: nat)
    requires key in m && key in left
    ensures Without(m, left - {key}) == Without(m, left)[key := m[key]]
  {
  }

  /** The lists in key order, with a record for each. */
  method WriteLists(m: Index, base: nat) returns (entries: seq<Slot>, sec: seq<byte>)
    requires Storing(m)
    ensures Written(entries, sec, base, m, m)
  {
    entries, sec := [], [];
    var left := m.Keys;
    assert Without(m, left) == map[];
    while left != {}
      invariant left <= m.Keys
      invariant Written(entries, sec, base, m, Without(m, left))
    {
      var key := LeastOf(left);
      WithoutStep(m, left, key);
      entries, sec := WriteList(m, key, base, entries, sec, Without(m, left));
      left := left - {key};
    }
    assert Without(m, {}) == m;
  }

  lemma {:induction false} PostingLength(post: seq<nat>)
    requires Codable(post, 0)
    ensures |post| < U32
  {
    AscendingLength(post, MAX_DOCS);
  }

  lemma {:induction false} NewRecord(sec: seq<byte>, base: nat, s: Slot, count: nat, enc: seq<byte>)
    requires s.count == Cut32(count) && s.off == Cut64(base + |sec|) && s.len == Cut32(|enc|)
    requires count < U32 && |enc| < U32 && base + |sec + enc| < U64
    ensures s.count == count && s.off == base + |sec| && s.len == |enc|
    ensures (sec + enc)[s.off - base..s.off - base + s.len] == enc
  {
    var off, len := base + |sec|, |enc|;
    NoCut(s, count, off, len);
    assert (sec + enc)[|sec|..|sec| + |enc|] == enc;
  }

  lemma {:induction false} NoCut(s: Slot, count: nat, off: nat, len: nat)
    requires s.count == Cut32(count) && s.off == Cut64(off) && s.len == Cut32(len)
    requires count < U32 && off < U64 && len < U32
    ensures s.count == count && s.off == off && s.len == len
  {
  }

  lemma {:induction false} AddRecord(entries: seq<Slot>, sec: seq<byte>, base: nat, done: Index, s: Slot,
      post: seq<nat>, enc: seq<byte>)
    requires s.key !in done && PointsAt(s, sec + enc, base, post)
    requires Records(entries, sec, base, done)
    ensures Records(entries + [s], sec + enc, base, done[s.key := post])
  {
    var m := done[s.key := post];
    forall r | r in entries + [s] ensures r.key in m && PointsAt(r, sec + enc, base, m[r.key]) {
      if r in entries { PointsAtLonger(r, sec, enc, base, done[r.key]); }
    }
    forall t | t in m ensures exists r :: r in entries + [s] && r.key == t {
      if t != s.key {
        var r :| r in entries && r.key == t;
        assert r in entries + [s];
      } else {
        assert s in entries + [s];
      }
    }
  }

  lemma {:induction false} OneMore(entries: seq<Slot>, sec: seq<byte>, base: nat, done: Index, s: Slot, m: Index,
      enc: seq<byte>)
    requires s.key in m && s.key !in done && Codable(m[s.key], 0) && enc == Encoded(m[s.key])
    requires s.count == Cut32(|m[s.key]|) && s.off == Cut64(base + |sec|) && s.len == Cut32(|enc|)
    requires base + |sec| < U64 && ListsFit(m) ==> Records(entries, sec, base, done)
    ensures base + |sec + enc| < U64 && ListsFit(m) ==> Records(entries + [s], sec + enc, base, done[s.key := m[s.key]])
  {
    if base + |sec + enc| < U64 && ListsFit(m) {
      PostingLength(m[s.key]);
      NewRecord(sec, base, s, |m[s.key]|, enc);
      AddRecord(entries, sec, base, done, s, m[s.key], enc);
    }
  }

  lemma {:induction false} AscendingLength(s: seq<nat>, bound: nat)
    requires Ascending(s) && forall x :: x in s ==> x < bound
    ensures |s| <= bound
  {
    if s != [] {
      var n := |s| - 1;
      forall x | x in s[..n] ensures x < s[n] { }
      assert s[n] in s;
      AscendingLength(s[..n], s[n]);
    }
  }

  method LeastOf(s: set<nat>) returns (least: nat)
    requires s != {}
    ensures least in s && forall x :: x in s ==> least <= x
  {
    least :| least in s;
    var left := s - {least};
    while left != {}
      invariant left <= s && least in s
      invariant forall x :: x in s && x !in left ==> least <= x
    {
      var x :| x in left;
      if x < least { least := x; }
      left := left - {x};
    }
  }

  /** Slots for twice as many records as there are, and their binary logarithm. */
  method TableSize(m: Index) returns (log2: nat, slots: nat)
    ensures slots == (if m == map[] then 0 else Pow2(log2)) && (log2 == 0 <==> m == map[])
    ensures m != map[] ==> 2 * |m| <= slots < 4 * |m|
  {
    var n := |m|;
    log2 := if n == 0 then 0 else CeilLog2(n * 2);
    slots := if n == 0 then 0 else Pow2(log2);
  }

  /** The entry table and the posting section of an index, with list offsets that
      count from `base`: the tail of `DbBuilder::finish` and of
      `ShardBuilder::finish`. */
  method WriteIndex(h: nat -> nat, m: Index, slots: nat, log2: nat, base: nat)
    returns (table: seq<byte>, sec: seq<byte>, ghost t: seq<Slot>)
    requires Storing(m)
    requires slots == (if m == map[] then 0 else Pow2(log2)) && (m != map[] ==> |m| < slots)
    ensures table == TableBytes(t) && |t| == slots
    ensures forall key :: key in m ==> |Encoded(m[key])| <= |sec|
    ensures base + |sec| < U64 && ListsFit(m) ==> Serves(t, h, sec, base, m)
  {
    var entries;
    entries, sec := WriteLists(m, base);
    table, t := Build(h, entries, slots, log2);
    if base + |sec| < U64 && ListsFit(m) {
      assert Built(t, h, entries);
    }
  }

  /** Table `t` and the posting section at `base` answer for index `m`. */
  ghost predicate Serves(t: seq<Slot>, h: nat -> nat, sec: seq<byte>, base: nat, m: Index) {
    exists entries :: Built(t, h, entries) && Records(entries, sec, base, m)
  }

  /** An index served by a section is served by the file that ends with it. */
  lemma {:induction false} ServesInFile(t: seq<Slot>, h: nat -> nat, sec: seq<byte>, base: nat, m: Index,
      file: seq<byte>)
    requires Serves(t, h, sec, base, m)
    requires base + |sec| == |file| && file[base..] == sec
    ensures Serves(t, h, file, 0, m)
  {
    var entries: seq<Slot> :| Built(t, h, entries) && Records(entries, sec, base, m);
    Relocate(entries, sec, base, m, file);
  }

  // ---------------------------------------------------------------- reading

  /** The probe loop over table bytes; a slot behind the end is an error. */
  function FindSlot(table: seq<byte>, slots: nat, h: nat -> nat, key: nat, idx: nat, probe: nat): Result<Option<Slot>>
    requires idx < slots
    decreases slots - probe
  {
    if SLOT_LEN * idx + SLOT_LEN > |table| then Err(Truncated)
    else
      var s := ReadSlot(table, SLOT_LEN * idx);
      if s.key == EMPTY_KEY then Ok(None)
      else if probe > Distance(idx, Home(h, s.key, slots), slots) then Ok(None)
      else if s.key == key then Ok(Some(s))
      else FindSlot(table, slots, h, key, Next(idx, slots), probe + 1)
  }

  /** Lookup of a trigram, then the decoding of its list. */
  function Fetch(table: seq<byte>, lists: seq<byte>, slots: nat, h: nat -> nat, key: nat): Result<Option<seq<nat>>> {
    if slots == 0 then Ok(None)
    else
      match FindSlot(table, slots, h, key, Home(h, key, slots), 0)
      case Err(e) => Err(e)
      case Ok(None) => Ok(None)
      case Ok(Some(s)) => Decoded(lists, s)
  }

  function Decoded(lists: seq<byte>, s: Slot): Result<Option<seq<nat>>> {
    if s.off + s.len > |lists| then Err(Truncated)
    else
      match TurboPFor.Decode(lists[s.off..s.off + s.len], s.count)
      case None => Err(Panic)
      case Some(deltas) =>
        match Sums(deltas, 0)
        case Err(e) => Err(e)
        case Ok(post) => Ok(Some(post))
  }

  /** The probe distance of the entry in slot `idx`, by the masked arithmetic of the
      original. */
  method ProbeOf(s: Slot, slots: nat, h: nat -> nat, idx: nat, ghost log2: nat) returns (theirProbe: nat, next: nat)
    requires idx < slots == Pow2(log2)
    ensures theirProbe == Distance(idx, Home(h, s.key, slots), slots) && next == Next(idx, slots)
  {
    Masked(h, s.key, idx, log2);
    var ideal: nat := And(h(s.key), slots - 1);
    theirProbe := And(idx + slots - ideal, slots - 1);
    next := And(idx + 1, slots - 1);
  }

  lemma {:induction false} FindStep(table: seq<byte>, slots: nat, h: nat -> nat, key: nat, idx: nat, probe: nat,
      s: Slot)
    requires idx < slots && SLOT_LEN * idx + SLOT_LEN <= |table| && s == ReadSlot(table, SLOT_LEN * idx)
    ensures FindSlot(table, slots, h, key, idx, probe)
         == if s.key == EMPTY_KEY || probe > Distance(idx, Home(h, s.key, slots), slots) then Ok(None)
            else if s.key == key then Ok(Some(s))
            else FindSlot(table, slots, h, key, Next(idx, slots), probe + 1)
  {
  }

  method Locate(table: seq<byte>, slots: nat, h: nat -> nat, key: nat, ghost log2: nat)
    returns (r: Result<Option<Slot>>)
    requires 0 < slots == Pow2(log2)
    ensures r == FindSlot(table, slots, h, key, Home(h, key, slots), 0)
  {
    assert And(h(key), slots - 1) == Home(h, key, slots) by { Masked(h, key, 0, log2); }
    var idx: nat, probe: nat := And(h(key), slots - 1), 0;
    while true
      invariant idx < slots && probe <= slots
      invariant FindSlot(table, slots, h, key, Home(h, key, slots), 0) == FindSlot(table, slots, h, key, idx, probe)
      decreases slots - probe
    {
      var at := SLOT_LEN * idx;
      if at + SLOT_LEN > |table| { return Err(Truncated); }
      var s := ReadSlot(table, at);
      FindStep(table, slots, h, key, idx, probe, s);
      if s.key == EMPTY_KEY { return Ok(None); }
      var theirProbe: nat, next: nat := ProbeOf(s, slots, h, idx, log2);
      if probe > theirProbe { return Ok(None); }
      if s.key == key { return Ok(Some(s)); }
      idx, probe := next, probe + 1;
    }
  }

  method FetchPosting(table: seq<byte>, lists: seq<byte>, slots: nat, h: nat -> nat, key: nat, ghost log2: nat)
    returns (r: Result<Option<seq<nat>>>)
    requires slots > 0 ==> slots == Pow2(log2)
    ensures r == Fetch(table, lists, slots, h, key)
  {
    if slots == 0 { return Ok(None); }
    var slot := Locate(table, slots, h, key, log2);
    match slot {
      case Err(e) => return Err(e);
      case Ok(None) => return Ok(None);
      case Ok(Some(s)) =>
        if s.off + s.len > |lists| { return Err(Truncated); }
        var deltas := TurboPFor.DecodeU32s(lists[s.off..s.off + s.len], s.count);
        if deltas.None? { return Err(Panic); }
        var sums := ComputeSums(deltas.value);
        match sums {
          case Err(e) => return Err(e);
          case Ok(post) => return Ok(Some(post));
        }
    }
  }

  /** On a buffer that starts with a sound table the loop is the abstract lookup. */
  lemma {:induction false} FindSlotIsLookup(table: seq<byte>, t: seq<Slot>, h: nat -> nat, key: nat, idx: nat,
      probe: nat)
    requires Sound(t, h) && TableBytes(t) <= table && idx < |t|
    ensures FindSlot(table, |t|, h, key, idx, probe) == Ok(Lookup(t, h, key, idx, probe))
    decreases |t| - probe
  {
    SlotInTable(t, idx);
    assert t[idx] in t;
    assert table[0..|TableBytes(t)|] == TableBytes(t);
    SubSlice(table, 0, TableBytes(t), SLOT_LEN * idx, SLOT_LEN * idx + SLOT_LEN);
    SlotRoundTrip(table, SLOT_LEN * idx, t[idx]);
    if Occupied(t[idx]) && probe <= Probe(t, h, idx) && t[idx].key != key {
      FindSlotIsLookup(table, t, h, key, Next(idx, |t|), probe + 1);
    }
  }

  lemma {:induction false} DecodedPosting(lists: seq<byte>, s: Slot, post: seq<nat>)
    requires PointsAt(s, lists, 0, post)
    ensures Decoded(lists, s) == Ok(Some(post))
  {
    PostingRoundTrip(post);
  }

  /** A stored index answers every key exactly: its own list, or nothing. */
  lemma {:induction false} FetchExact(table: seq<byte>, t: seq<Slot>, lists: seq<byte>, h: nat -> nat, m: Index,
      key: nat)
    requires TableBytes(t) <= table && Serves(t, h, lists, 0, m) && (|t| == 0 <==> m == map[])
    ensures Fetch(table, lists, |t|, h, key) == Ok(if key in m then Some(m[key]) else None)
  {
    if |t| > 0 {
      var entries: seq<Slot> :| Built(t, h, entries) && Records(entries, lists, 0, m);
      FindSlotIsLookup(table, t, h, key, Home(h, key, |t|), 0);
      LookupExact(t, h, key);
      if key in m {
        var s: Slot :| s in entries && s.key == key;
        assert s in Contents(t);
        DecodedPosting(lists, s, m[key]);
      }
    }
  }
}
