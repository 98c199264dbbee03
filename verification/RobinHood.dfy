/** The open-addressed trigram table with Robin Hood displacement, built in place
    on a byte array, and its early-exit lookup. */
module RobinHood {
  import opened Prelude
  import opened Bytes
  import Bits

  const EMPTY_KEY: nat := 0xFFFF_FFFF
  const SLOT_LEN: nat := 20

  datatype Slot = Slot(key: nat, count: nat, off: nat, len: nat)

  const EMPTY := Slot(EMPTY_KEY, 0, 0, 0)

  predicate Occupied(s: Slot) { s.key != EMPTY_KEY }

  predicate Storable(s: Slot) { s.key < U32 && s.count < U32 && s.off < U64 && s.len < U32 }

  // ---------------------------------------------------------------- bytes

  function SlotBytes(s: Slot): (b: seq<byte>)
    ensures |b| == SLOT_LEN
  {
    LE32(s.key) + LE32(s.count) + LE64(s.off) + LE32(s.len)
  }

  function TableBytes(t: seq<Slot>): (b: seq<byte>)
    ensures |b| == SLOT_LEN * |t|
  {
    if t == [] then [] else TableBytes(t[..|t| - 1]) + SlotBytes(t[|t| - 1])
  }

  function ReadSlot(b: seq<byte>, at: nat): Slot
    requires at + SLOT_LEN <= |b|
  {
    Slot(Read(b, at, 4), Read(b, at + 4, 4), Read(b, at + 8, 8), Read(b, at + 16, 4))
  }

  lemma {:induction false} SlotRoundTrip(b: seq<byte>, at: nat, s: Slot)
    requires at + SLOT_LEN <= |b| && b[at..at + SLOT_LEN] == SlotBytes(s) && Storable(s)
    ensures ReadSlot(b, at) == s
  {
    WidthBounds();
    var k, c, o, l := LE32(s.key), LE32(s.count), LE64(s.off), LE32(s.len);
    Quarters(b, at, k, c, o, l);
    ReadLittle(b, at, s.key, 4);
    ReadLittle(b, at + 4, s.count, 4);
    ReadLittle(b, at + 8, s.off, 8);
    ReadLittle(b, at + 16, s.len, 4);
  }

  lemma {:induction false} SlotInTable(t: seq<Slot>, i: nat)
    requires i < |t|
    ensures TableBytes(t)[SLOT_LEN * i..SLOT_LEN * i + SLOT_LEN] == SlotBytes(t[i])
  {
    if i < |t| - 1 {
      var front := TableBytes(t[..|t| - 1]);
      SlotInTable(t[..|t| - 1], i);
      SubSlice(TableBytes(t), 0, front, SLOT_LEN * i, SLOT_LEN * i + SLOT_LEN);
    }
  }

  /** Replacing a part of the front leaves what is behind it. */
  lemma {:induction false} SpliceFront(f: seq<byte>, l: seq<byte>, a: nat, b: nat, part: seq<byte>)
    requires a <= b <= |f|
    ensures (f + l)[..a] + part + (f + l)[b..] == f[..a] + part + f[b..] + l
  {
    assert (f + l)[..a] == f[..a] && (f + l)[b..] == f[b..] + l;
  }

  lemma {:induction false} TableUpdate(t: seq<Slot>, i: nat, s: Slot)
    requires i < |t|
    ensures TableBytes(t[i := s])
         == TableBytes(t)[..SLOT_LEN * i] + SlotBytes(s) + TableBytes(t)[SLOT_LEN * i + SLOT_LEN..]
  {
    var n := |t|;
    if i < n - 1 {
      TableUpdate(t[..n - 1], i, s);
      assert t[i := s][..n - 1] == t[..n - 1][i := s];
      SpliceFront(TableBytes(t[..n - 1]), SlotBytes(t[n - 1]), SLOT_LEN * i, SLOT_LEN * i + SLOT_LEN, SlotBytes(s));
    } else {
      assert t[i := s][..n - 1] == t[..n - 1];
    }
  }

  // ---------------------------------------------------------------- positions

  function Next(i: nat, n: nat): (j: nat)
    requires i < n
    ensures j < n
  {
    if i + 1 == n then 0 else i + 1
  }

  /** Steps from `home` forward to `i` around a table of `n` slots. */
  function Distance(i: nat, home: nat, n: nat): (d: nat)
    requires i < n && home < n
    ensures d < n
  {
    if i >= home then i - home else i + n - home
  }

  function Home(h: nat -> nat, key: nat, n: nat): (i: nat)
    requires n > 0
    ensures i < n
  {
    h(key) % n
  }

  /** What the masked expressions of the table code compute. */
  lemma {:induction false} Masked(h: nat -> nat, key: nat, i: nat, log2: nat)
    requires i < Bits.Pow2(log2)
    ensures var n := Bits.Pow2(log2);
            && Bits.And(h(key), n - 1) == Home(h, key, n)
            && Bits.And(i + 1, n - 1) == Next(i, n)
            && Bits.And(i + n - Home(h, key, n), n - 1) == Distance(i, Home(h, key, n), n)
  {
    var n := Bits.Pow2(log2);
    var home := Home(h, key, n);
    Bits.MaskIsMod(h(key), log2);
    Bits.MaskIsMod(i + 1, log2);
    Bits.MaskIsMod(i + n - home, log2);
    if i + 1 == n { Bits.ModUnique(i + 1, n, 1, 0); } else { Bits.ModUnique(i + 1, n, 0, i + 1); }
    if i >= home {
      Bits.ModUnique(i + n - home, n, 1, i - home);
    } else {
      Bits.ModUnique(i + n - home, n, 0, i + n - home);
    }
  }

  /** How far slot `i` lies from the home of its key. */
  function Probe(t: seq<Slot>, h: nat -> nat, i: nat): (d: nat)
    requires i < |t|
    ensures d < |t|
  {
    Distance(i, Home(h, t[i].key, |t|), |t|)
  }

  /** The Robin Hood invariant: an entry away from its home has before it an entry
      that is at most one step nearer to its own. */
  ghost predicate Hood(t: seq<Slot>, h: nat -> nat) {
    forall i :: 0 <= i < |t| ==> HoodAt(t, h, i)
  }

  ghost predicate HoodAt(t: seq<Slot>, h: nat -> nat, i: nat)
    requires i < |t|
  {
    var j := Next(i, |t|);
    Occupied(t[j]) && Probe(t, h, j) > 0 ==> Occupied(t[i]) && Probe(t, h, i) + 1 >= Probe(t, h, j)
  }

  ghost predicate DistinctKeys(t: seq<Slot>) {
    forall i, j :: 0 <= i < j < |t| && Occupied(t[i]) && Occupied(t[j]) ==> t[i].key != t[j].key
  }

  ghost function Contents(t: seq<Slot>): set<Slot> {
    set s | s in t && Occupied(s)
  }

  // ---------------------------------------------------------------- lookup

  /** The lookup from slot `i`, `probe` steps from the key's home.  The probe
      distances in a table of n slots are below n, so it stops on any table. */
  function Lookup(t: seq<Slot>, h: nat -> nat, key: nat, i: nat, probe: nat): Option<Slot>
    requires i < |t|
    decreases |t| - probe
  {
    if !Occupied(t[i]) then None
    else if probe > Probe(t, h, i) then None
    else if t[i].key == key then Some(t[i])
    else Lookup(t, h, key, Next(i, |t|), probe + 1)
  }

  /** Every slot on the way from a key's home to the key is occupied by an entry
      at least as far from its own home. */
  lemma {:induction false} WayOccupied(t: seq<Slot>, h: nat -> nat, i: nat, j: nat)
    requires Hood(t, h) && i < |t| && j < |t| && Occupied(t[j])
    requires Distance(i, Home(h, t[j].key, |t|), |t|) <= Probe(t, h, j)
    ensures Occupied(t[i]) && Probe(t, h, i) >= Distance(i, Home(h, t[j].key, |t|), |t|)
    decreases Probe(t, h, j) - Distance(i, Home(h, t[j].key, |t|), |t|)
  {
    if i != j {
      WayOccupied(t, h, Next(i, |t|), j);
      assert HoodAt(t, h, i);
    }
  }

  lemma {:induction false} LookupFinds(t: seq<Slot>, h: nat -> nat, i: nat, j: nat)
    requires Hood(t, h) && DistinctKeys(t) && i < |t| && j < |t| && Occupied(t[j])
    requires Distance(i, Home(h, t[j].key, |t|), |t|) <= Probe(t, h, j)
    ensures Lookup(t, h, t[j].key, i, Distance(i, Home(h, t[j].key, |t|), |t|)) == Some(t[j])
    decreases Probe(t, h, j) - Distance(i, Home(h, t[j].key, |t|), |t|)
  {
    WayOccupied(t, h, i, j);
    if i != j {
      assert t[i].key != t[j].key;
      LookupFinds(t, h, Next(i, |t|), j);
    }
  }

  lemma {:induction false} LookupSound(t: seq<Slot>, h: nat -> nat, key: nat, i: nat, probe: nat)
    requires i < |t|
    ensures var r := Lookup(t, h, key, i, probe); r.Some? ==> r.value in Contents(t) && r.value.key == key
    decreases |t| - probe
  {
    if Occupied(t[i]) && probe <= Probe(t, h, i) && t[i].key != key {
      LookupSound(t, h, key, Next(i, |t|), probe + 1);
    }
  }

  /** Lookup from the home slot finds exactly the stored keys, each with its own
      payload. */
  lemma {:induction false} LookupExact(t: seq<Slot>, h: nat -> nat, key: nat)
    requires |t| > 0 && Hood(t, h) && DistinctKeys(t)
    ensures var r := Lookup(t, h, key, Home(h, key, |t|), 0);
            && (r.Some? <==> exists s :: s in Contents(t) && s.key == key)
            && (forall s :: s in Contents(t) && s.key == key ==> r == Some(s))
  {
    LookupSound(t, h, key, Home(h, key, |t|), 0);
    forall s | s in Contents(t) && s.key == key
      ensures Lookup(t, h, key, Home(h, key, |t|), 0) == Some(s)
    {
      var j :| 0 <= j < |t| && t[j] == s;
      LookupFinds(t, h, Home(h, key, |t|), j);
    }
  }

  // ---------------------------------------------------------------- building

  function Count(t: seq<Slot>): (c: nat)
    ensures c <= |t|
  {
    if t == [] then 0 else Count(t[..|t| - 1]) + if Occupied(t[|t| - 1]) then 1 else 0
  }

  lemma {:induction false} CountUpdate(t: seq<Slot>, i: nat, s: Slot)
    requires i < |t| && Occupied(s)
    ensures Count(t[i := s]) == Count(t) + if Occupied(t[i]) then 0 else 1
  {
    var n := |t|;
    if i < n - 1 {
      CountUpdate(t[..n - 1], i, s);
      assert t[i := s][..n - 1] == t[..n - 1][i := s];
    } else {
      assert t[i := s][..n - 1] == t[..n - 1];
    }
  }

  lemma {:induction false} SomeEmpty(t: seq<Slot>) returns (gap: nat)
    requires Count(t) < |t|
    ensures gap < |t| && !Occupied(t[gap])
  {
    if Occupied(t[|t| - 1]) {
      gap := SomeEmpty(t[..|t| - 1]);
    } else {
      gap := |t| - 1;
    }
  }

  /** A table whose slots are good to be looked up in. */
  ghost predicate Sound(t: seq<Slot>, h: nat -> nat) {
    && Hood(t, h) && DistinctKeys(t)
    && forall s :: s in t ==> Storable(s)
  }

  /** A carried entry may be put down or moved on at slot `i`: it is `probe` steps
      from home, its key is not in the table, and the slot before it, if it has
      left home, holds an entry not much nearer to its own. */
  ghost predicate Carried(t: seq<Slot>, h: nat -> nat, e: Slot, i: nat, probe: nat) {
    && i < |t| && Occupied(e) && Storable(e)
    && probe == Distance(i, Home(h, e.key, |t|), |t|)
    && (forall j :: 0 <= j < |t| && Occupied(t[j]) ==> t[j].key != e.key)
    && (probe > 0 ==> forall j :: 0 <= j < |t| && Next(j, |t|) == i ==> Occupied(t[j]) && Probe(t, h, j) + 1 >= probe)
  }

  lemma {:induction false} PutKeepsHood(t: seq<Slot>, h: nat -> nat, e: Slot, i: nat, probe: nat)
    requires Sound(t, h) && Carried(t, h, e, i, probe)
    requires Occupied(t[i]) ==> probe > Probe(t, h, i)
    ensures Sound(t[i := e], h)
  {
    var u := t[i := e];
    forall k | 0 <= k < |u| ensures HoodAt(u, h, k) {
      assert HoodAt(t, h, k);
      assert Next(i, |t|) == i ==> |t| == 1;
    }
    forall j, k | 0 <= j < k < |u| && Occupied(u[j]) && Occupied(u[k]) ensures u[j].key != u[k].key { }
  }

  lemma {:induction false} PutContents(t: seq<Slot>, i: nat, e: Slot)
    requires i < |t| && Occupied(e)
    ensures Contents(t[i := e]) + {t[i]} + {e} == Contents(t) + {t[i]} + {e}
    ensures !Occupied(t[i]) ==> Contents(t[i := e]) == Contents(t) + {e}
  {
    var u := t[i := e];
    forall s | s in Contents(t) && s != t[i] ensures s in Contents(u) {
      var j :| 0 <= j < |t| && t[j] == s;
      assert u[j] == s;
    }
    assert u[i] == e;
  }

  /** Moving on past slot `i`, whose entry is not nearer to its home. */
  lemma {:induction false} CarryOn(t: seq<Slot>, h: nat -> nat, e: Slot, i: nat, probe: nat, gap: nat)
    requires Hood(t, h) && Carried(t, h, e, i, probe) && Occupied(t[i]) && probe <= Probe(t, h, i)
    requires gap < |t| && !Occupied(t[gap])
    ensures Carried(t, h, e, Next(i, |t|), probe + 1)
    ensures Distance(gap, Next(i, |t|), |t|) < Distance(gap, i, |t|)
  {
    if probe + 1 == |t| { WayOccupied(t, h, gap, i); }
  }

  /** Putting the carried entry down at `i` and picking up the one that lay there. */
  lemma {:induction false} Swap(t: seq<Slot>, h: nat -> nat, e: Slot, i: nat, probe: nat)
    requires Sound(t, h) && Carried(t, h, e, i, probe)
    requires Occupied(t[i]) && probe > Probe(t, h, i)
    ensures Sound(t[i := e], h) && Carried(t[i := e], h, t[i], i, Probe(t, h, i))
    ensures Probe(t[i := e], h, i) == probe
  {
    PutKeepsHood(t, h, e, i, probe);
    assert t[i] in t;
    forall j | 0 <= j < |t| && Next(j, |t|) == i && Probe(t, h, i) > 0
      ensures Occupied(t[i := e][j]) && Probe(t[i := e], h, j) + 1 >= Probe(t, h, i)
    {
      assert HoodAt(t, h, j);
    }
  }

  /** Overwrites the bytes of `table` from `b` on. */
  method WriteBytes(table: array<byte>, b: nat, bytes: seq<byte>)
    requires b + |bytes| <= table.Length
    modifies table
    ensures table[..] == old(table[..b]) + bytes + old(table[b + |bytes|..])
  {
    for k := 0 to |bytes|
      invariant forall j :: 0 <= j < k ==> table[b + j] == bytes[j]
      invariant forall j :: 0 <= j < table.Length && (j < b || b + k <= j) ==> table[j] == old(table[j])
    {
      table[b + k] := bytes[k];
    }
    assert table[b..b + |bytes|] == bytes;
  }

  method WriteSlot(table: array<byte>, idx: nat, s: Slot, ghost t: seq<Slot>)
    requires idx < |t| && table[..] == TableBytes(t)
    modifies table
    ensures table[..] == TableBytes(t[idx := s])
  {
    TableUpdate(t, idx, s);
    WriteBytes(table, idx * SLOT_LEN, SlotBytes(s));
  }

  method SlotAt(table: array<byte>, idx: nat, ghost t: seq<Slot>) returns (s: Slot)
    requires idx < |t| && table[..] == TableBytes(t) && forall s :: s in t ==> Storable(s)
    ensures s == t[idx]
  {
    SlotInTable(t, idx);
    assert t[idx] in t;
    SlotRoundTrip(table[..], idx * SLOT_LEN, t[idx]);
    s := ReadSlot(table[..], idx * SLOT_LEN);
  }

  /** The last entry carried goes into an empty slot. */
  lemma {:induction false} PutDown(t: seq<Slot>, h: nat -> nat, e: Slot, i: nat, probe: nat)
    requires Sound(t, h) && Carried(t, h, e, i, probe) && !Occupied(t[i])
    ensures Sound(t[i := e], h) && Contents(t[i := e]) == Contents(t) + {e}
    ensures Count(t[i := e]) == Count(t) + 1
  {
    PutKeepsHood(t, h, e, i, probe);
    PutContents(t, i, e);
    CountUpdate(t, i, e);
  }

  /** Displacing keeps what the table and the carried entry hold together. */
  lemma {:induction false} SwapKeeps(t: seq<Slot>, h: nat -> nat, e: Slot, i: nat, probe: nat, all: set<Slot>)
    requires Sound(t, h) && Carried(t, h, e, i, probe)
    requires Occupied(t[i]) && probe > Probe(t, h, i) && Contents(t) + {e} == all
    ensures Sound(t[i := e], h) && Carried(t[i := e], h, t[i], i, Probe(t, h, i))
    ensures Probe(t[i := e], h, i) == probe
    ensures Contents(t[i := e]) + {t[i]} == all && Count(t[i := e]) == Count(t)
  {
    Swap(t, h, e, i, probe);
    PutContents(t, i, e);
    CountUpdate(t, i, e);
    assert t[i] in Contents(t);
    assert t[i := e][i] == e;
    assert e in Contents(t[i := e]);
  }

  /** Looks at slot `idx`: the entry there and its probe distance. */
  method Inspect(table: array<byte>, h: nat -> nat, idx: nat, n: nat, ghost log2: nat, ghost t: seq<Slot>)
    returns (slot: Slot, theirProbe: nat)
    requires |t| == n == Bits.Pow2(log2) && table[..] == TableBytes(t) && idx < n
    requires forall s :: s in t ==> Storable(s)
    ensures slot == t[idx] && theirProbe == Probe(t, h, idx)
  {
    slot := SlotAt(table, idx, t);
    Masked(h, slot.key, idx, log2);
    var ideal: nat := Bits.And(h(slot.key), n - 1);
    theirProbe := Bits.And(idx + n - ideal, n - 1);
  }

  lemma {:induction false} FreshCarried(t: seq<Slot>, h: nat -> nat, e: Slot)
    requires |t| > 0 && Occupied(e) && Storable(e) && forall s :: s in Contents(t) ==> s.key != e.key
    ensures Carried(t, h, e, Home(h, e.key, |t|), 0)
  {
    forall j | 0 <= j < |t| && Occupied(t[j]) ensures t[j].key != e.key { assert t[j] in Contents(t); }
  }

  /** One key with its payload goes into the table, displacing entries nearer to
      their homes, until an empty slot takes the last one carried. */
  method Insert(table: array<byte>, h: nat -> nat, entry: Slot, n: nat, ghost log2: nat, ghost t0: seq<Slot>)
    returns (ghost t: seq<Slot>)
    requires |t0| == n == Bits.Pow2(log2) && table[..] == TableBytes(t0)
    requires Sound(t0, h) && Count(t0) < n
    requires Occupied(entry) && Storable(entry) && forall s :: s in Contents(t0) ==> s.key != entry.key
    modifies table
    ensures |t| == n && table[..] == TableBytes(t)
    ensures Sound(t, h) && Contents(t) == Contents(t0) + {entry} && Count(t) == Count(t0) + 1
  {
    t := t0;
    ghost var all := Contents(t0) + {entry};
    var mask := n - 1;
    Masked(h, entry.key, 0, log2);
    FreshCarried(t, h, entry);
    var idx: nat := Bits.And(h(entry.key), mask);
    var e: Slot, probe: nat := entry, 0;
    ghost var gap := SomeEmpty(t);
    while true
      invariant |t| == n && table[..] == TableBytes(t)
      invariant Sound(t, h) && Carried(t, h, e, idx, probe)
      invariant Contents(t) + {e} == all && Count(t) == Count(t0)
      invariant gap < n && !Occupied(t[gap])
      decreases Distance(gap, idx, n)
    {
      var slot, theirProbe := Inspect(table, h, idx, n, log2, t);
      if slot.key == EMPTY_KEY {
        PutDown(t, h, e, idx, probe);
        WriteSlot(table, idx, e, t);
        t := t[idx := e];
        return;
      }
      if probe > theirProbe {
        SwapKeeps(t, h, e, idx, probe, all);
        WriteSlot(table, idx, e, t);
        t := t[idx := e];
        e := slot;
        probe := theirProbe;
      }
      CarryOn(t, h, e, idx, probe, gap);
      Masked(h, e.key, idx, log2);
      idx := Bits.And(idx + 1, mask);
      probe := probe + 1;
    }
  }

  /** A table built from `entries`: it stores exactly them and can be looked up in. */
  ghost predicate Built(t: seq<Slot>, h: nat -> nat, entries: seq<Slot>) {
    Sound(t, h) && Contents(t) == set s | s in entries
  }

  ghost predicate Entries(entries: seq<Slot>) {
    && (forall s :: s in entries ==> Occupied(s) && Storable(s))
    && forall i, j :: 0 <= i < j < |entries| ==> entries[i].key != entries[j].key
  }

  lemma {:induction false} EmptyTable(t: seq<Slot>, h: nat -> nat)
    requires forall s :: s in t ==> s == EMPTY
    ensures Sound(t, h) && Contents(t) == {} && Count(t) == 0
  {
    forall i | 0 <= i < |t| ensures HoodAt(t, h, i) { assert t[Next(i, |t|)] in t; }
    forall i | 0 <= i < |t| ensures !Occupied(t[i]) { assert t[i] in t; }
    NoneOccupied(t);
  }

  lemma {:induction false} NoneOccupied(t: seq<Slot>)
    requires forall s :: s in t ==> !Occupied(s)
    ensures Count(t) == 0
  {
    if t != [] { NoneOccupied(t[..|t| - 1]); assert t[|t| - 1] in t; }
  }

  /** Robin Hood insertion of every entry into a power-of-two table with more slots
      than entries. */
  method Build(h: nat -> nat, entries: seq<Slot>, slots: nat, ghost log2: nat) returns (bytes: seq<byte>,
      ghost t: seq<Slot>)
    requires Entries(entries)
    requires slots == 0 ==> entries == []
    requires slots > 0 ==> slots == Bits.Pow2(log2) && |entries| < slots
    ensures |t| == slots && bytes == TableBytes(t) && Built(t, h, entries)
  {
    t := [];
    if slots == 0 {
      EmptyTable(t, h);
      return [], t;
    }
    var table := new byte[slots * SLOT_LEN](i => 0);
    t := FillEmpty(table, slots);
    EmptyTable(t, h);
    for k := 0 to |entries|
      invariant |t| == slots && table[..] == TableBytes(t)
      invariant Sound(t, h) && Count(t) == k
      invariant Contents(t) == set s | s in entries[..k]
    {
      assert forall s :: s in entries[..k] ==> s.key != entries[k].key;
      assert entries[..k + 1] == entries[..k] + [entries[k]];
      t := Insert(table, h, entries[k], slots, log2, t);
    }
    assert entries[..|entries|] == entries;
    bytes := table[..];
  }

  method FillEmpty(table: array<byte>, slots: nat) returns (ghost t: seq<Slot>)
    requires table.Length == slots * SLOT_LEN
    modifies table
    ensures |t| == slots && table[..] == TableBytes(t) && forall s :: s in t ==> s == EMPTY
  {
    t := [];
    for i := 0 to slots
      invariant |t| == i && table[..i * SLOT_LEN] == TableBytes(t)
      invariant forall s :: s in t ==> s == EMPTY
    {
      WriteBytes(table, i * SLOT_LEN, SlotBytes(EMPTY));
      assert table[..(i + 1) * SLOT_LEN] == TableBytes(t) + SlotBytes(EMPTY);
      t := t + [EMPTY];
      assert t[..i] + [EMPTY] == t;
    }
    assert table[..] == table[..slots * SLOT_LEN];
  }
}
