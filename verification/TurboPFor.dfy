/** The patched frame-of-reference codec: blocks of up to 128 values, each with a
    bit width of its own, the low bits in bit planes and the values that do not
    fit in an exception list. */
module TurboPFor {
  import opened Prelude
  import opened Bytes
  import opened Bits

  const BLOCK: nat := 128
  const VERSION: byte := 1

  type u32 = x: int | 0 <= x < 0x1_0000_0000

  // ---------------------------------------------------------------- width

  /** `b < 32 && (v >> b) != 0` */
  predicate Exceeds(v: u32, b: nat) { b < 32 && Shr(v, b) != 0 }

  function Exceptions(vals: seq<u32>, b: nat): (e: nat)
    ensures e <= |vals|
  {
    if vals == [] then 0
    else Exceptions(vals[..|vals| - 1], b) + if Exceeds(vals[|vals| - 1], b) then 1 else 0
  }

  /** The exceptions from position `i` on. */
  function ExceptionsFrom(vals: seq<u32>, b: nat, i: nat): nat
    requires i <= |vals|
    decreases |vals| - i
  {
    if i == |vals| then 0 else (if Exceeds(vals[i], b) then 1 else 0) + ExceptionsFrom(vals, b, i + 1)
  }

  lemma {:induction false} ExceptionsSplit(vals: seq<u32>, b: nat, i: nat)
    requires i <= |vals|
    ensures Exceptions(vals[..i], b) + ExceptionsFrom(vals, b, i) == Exceptions(vals, b)
    decreases |vals| - i
  {
    if i == |vals| {
      assert vals[..i] == vals;
    } else {
      assert vals[..i + 1][..i] == vals[..i];
      ExceptionsSplit(vals, b, i + 1);
    }
  }

  lemma {:induction false} AllExceptions(vals: seq<u32>, b: nat)
    ensures ExceptionsFrom(vals, b, 0) == Exceptions(vals, b)
  {
    assert vals[..0] == [];
    ExceptionsSplit(vals, b, 0);
  }

  function Cost(vals: seq<u32>, b: nat): nat { |vals| * b + 32 * Exceptions(vals, b) }

  /** The cheapest width in `1..w`, the smallest one on ties. */
  function Cheapest(vals: seq<u32>, w: nat): (b: nat)
    requires w >= 1
    ensures 1 <= b <= w
  {
    if w == 1 then 1
    else
      var a := Cheapest(vals, w - 1);
      if Cost(vals, w) < Cost(vals, a) then w else a
  }

  function Width(vals: seq<u32>): (b: nat)
    ensures 1 <= b <= 32
  {
    Cheapest(vals, 32)
  }

  /** The chosen width has the least cost of all widths, and every smaller width
      costs strictly more. */
  lemma {:induction false} CheapestIsLeast(vals: seq<u32>, w: nat, c: nat)
    requires 1 <= c <= w
    ensures Cost(vals, Cheapest(vals, w)) <= Cost(vals, c)
    ensures c < Cheapest(vals, w) ==> Cost(vals, Cheapest(vals, w)) < Cost(vals, c)
  {
    if w > 1 {
      if c < w {
        CheapestIsLeast(vals, w - 1, c);
      }
    }
  }

  /** `32 - leading_zeros`, with 1 for zero. */
  function BitLength(v: nat): (k: nat)
    ensures k >= 1
  {
    if v < 2 then 1 else 1 + BitLength(v / 2)
  }

  lemma {:induction false} BitLengthFits(v: nat)
    ensures Shr(v, BitLength(v)) == 0
  {
    if v >= 2 { BitLengthFits(v / 2); }
  }

  lemma {:induction false} BitLengthBound(v: nat, k: nat)
    requires v < Pow2(k) && k >= 1
    ensures BitLength(v) <= k
  {
    if v >= 2 { BitLengthBound(v / 2, k - 1); }
  }

  lemma {:induction false} NoExceptions(vals: seq<u32>, b: nat)
    requires forall v :: v in vals ==> !Exceeds(v, b)
    ensures Exceptions(vals, b) == 0
  {
    if vals != [] { NoExceptions(vals[..|vals| - 1], b); }
  }

  lemma {:induction false} WideCost(vals: seq<u32>, longest: nat, w: nat)
    requires longest <= w
    requires forall v :: v in vals ==> Shr(v, longest) == 0
    ensures Cost(vals, longest) <= Cost(vals, w)
  {
    NoExceptions(vals, longest);
    MulMonotone(|vals|, longest, w);
  }

  /** Widths above the longest value cost more bits and save no exception, so
      leaving them out, except for 32, changes nothing. */
  lemma {:induction false} WideWidthsLose(vals: seq<u32>, longest: nat, w: nat)
    requires 1 <= longest <= w
    requires forall v :: v in vals ==> Shr(v, longest) == 0
    ensures Cheapest(vals, w) == Cheapest(vals, longest)
    decreases w
  {
    if longest < w {
      WideWidthsLose(vals, longest, w - 1);
      WideCost(vals, longest, w);
      CheapestIsLeast(vals, longest, longest);
    }
  }

  method LongestBits(vals: seq<u32>) returns (maxBits: nat)
    ensures 1 <= maxBits <= 32
    ensures forall v :: v in vals ==> Shr(v, maxBits) == 0
  {
    maxBits := 1;
    for i := 0 to |vals|
      invariant 1 <= maxBits <= 32
      invariant forall j :: 0 <= j < i ==> Shr(vals[j], maxBits) == 0
    {
      Pow64();
      BitLengthFits(vals[i]);
      BitLengthBound(vals[i], 32);
      var bits := BitLength(vals[i]);
      if bits > maxBits {
        forall j | 0 <= j < i ensures Shr(vals[j], bits) == 0 { ShrMonotone(vals[j], maxBits, bits); }
        maxBits := bits;
      } else {
        ShrMonotone(vals[i], bits, maxBits);
      }
    }
  }

  method CountExceptions(vals: seq<u32>, b: nat) returns (exc: nat)
    ensures exc == Exceptions(vals, b)
  {
    exc := 0;
    for i := 0 to |vals|
      invariant exc == Exceptions(vals[..i], b)
    {
      assert vals[..i + 1][..i] == vals[..i];
      if Exceeds(vals[i], b) { exc := exc + 1; }
    }
    assert vals[..|vals|] == vals;
  }

  /** The candidate widths `1..=maxBits`, and 32. */
  function Candidates(maxBits: nat): (widths: seq<nat>)
    requires 1 <= maxBits <= 32
    ensures |widths| == if maxBits < 32 then maxBits + 1 else 32
    ensures forall k :: 0 <= k < maxBits ==> widths[k] == k + 1
    ensures maxBits < 32 ==> widths[maxBits] == 32
  {
    seq(maxBits, i requires 0 <= i < maxBits => i + 1) + if maxBits < 32 then [32] else []
  }

  /** The width up to which the first `k` candidates have been compared. */
  function Compared(k: nat, maxBits: nat): nat { if k <= maxBits then k else 32 }

  lemma {:induction false} CompareNext(vals: seq<u32>, maxBits: nat, k: nat)
    requires 1 <= k <= maxBits <= 32 && (k == maxBits ==> maxBits < 32)
    requires forall v :: v in vals ==> Shr(v, maxBits) == 0
    ensures var best, b := Cheapest(vals, k), if k < maxBits then k + 1 else 32;
            Cheapest(vals, Compared(k + 1, maxBits)) == if Cost(vals, b) < Cost(vals, best) then b else best
  {
    if k == maxBits { WideWidthsLose(vals, maxBits, 31); }
  }

  method CostOf(vals: seq<u32>, b: nat) returns (exc: nat, cost: nat)
    ensures exc == Exceptions(vals, b) && cost == Cost(vals, b)
  {
    exc := CountExceptions(vals, b);
    cost := |vals| * b + 32 * exc;
  }

  method ChooseWidth(vals: seq<u32>) returns (best: nat, exceptions: nat)
    ensures best == Width(vals)
    ensures exceptions == Exceptions(vals, best)
  {
    var maxBits := LongestBits(vals);
    var widths := Candidates(maxBits);
    var bestCost: Option<nat> := None;
    best, exceptions := 32, 0;
    for k := 0 to |widths|
      invariant bestCost.None? <==> k == 0
      invariant k > 0 ==> best == Cheapest(vals, Compared(k, maxBits))
      invariant k > 0 ==> bestCost == Some(Cost(vals, best)) && exceptions == Exceptions(vals, best)
    {
      var b := widths[k];
      var exc: nat, cost: nat := CostOf(vals, b);
      if k > 0 { CompareNext(vals, maxBits, k); }
      if bestCost.None? || cost < bestCost.value {
        bestCost, best, exceptions := Some(cost), b, exc;
      }
    }
  }

  // ---------------------------------------------------------------- frame

  /** Bit plane `p` of every value: position `i` holds bit `p` of value `i`. */
  function Plane(vals: seq<u32>, p: nat): (bits: seq<bool>)
    ensures |bits| == |vals|
  {
    seq(|vals|, i requires 0 <= i < |vals| => Bit(vals[i], p))
  }

  function Planes(vals: seq<u32>, b: nat): (bits: seq<bool>)
    ensures |bits| == b * |vals|
  {
    if b == 0 then []
    else
      MulStep(b - 1, |vals|);
      Planes(vals, b - 1) + Plane(vals, b - 1)
  }

  lemma {:induction false} PlaneIndex(p: nat, b: nat, n: nat)
    requires p < b
    ensures p * n + n <= b * n
  {
    if p + 1 < b {
      PlaneIndex(p, b - 1, n);
      MulStep(b - 1, n);
    } else {
      MulStep(p, n);
    }
  }

  lemma {:induction false} BitInPlanes(vals: seq<u32>, b: nat, p: nat, i: nat)
    requires p < b && i < |vals|
    ensures p * |vals| + i < |Planes(vals, b)|
    ensures Planes(vals, b)[p * |vals| + i] == Bit(vals[i], p)
  {
    PlaneIndex(p, b, |vals|);
    if p < b - 1 { BitInPlanes(vals, b - 1, p, i); }
  }

  function Div8Ceil(n: nat): nat { (n + 7) / 8 }

  /** The number with the given binary digits, lowest first. */
  function Number(bits: seq<bool>): nat {
    if bits == [] then 0 else (if bits[0] then 1 else 0) + 2 * Number(bits[1..])
  }

  lemma {:induction false} NumberBound(bits: seq<bool>)
    ensures Number(bits) < Pow2(|bits|)
  {
    if bits != [] { NumberBound(bits[1..]); }
  }

  lemma {:induction false} BitOfNumber(bits: seq<bool>, k: nat)
    ensures Bit(Number(bits), k) == (k < |bits| && bits[k])
  {
    if bits == [] {
      if k > 0 { BitOfNumber([], k - 1); }
    } else if k > 0 {
      BitOfNumber(bits[1..], k - 1);
    }
  }

  function OneByte(bits: seq<bool>): byte
    requires |bits| <= 8
  {
    NumberBound(bits);
    PowerOfEight(|bits|);
    Number(bits)
  }

  lemma {:induction false} PowerOfEight(k: nat)
    requires k <= 8
    ensures Pow2(k) <= 256
  {
    assert Pow2(8) == 16 * Pow2(4) == 256;
    if k < 8 { PowGrows(k, 8); }
  }

  /** Bits packed eight to a byte, the last byte padded with zeros. */
  function Pack(bits: seq<bool>): (bytes: seq<byte>)
    ensures |bytes| == Div8Ceil(|bits|)
  {
    if bits == [] then []
    else if |bits| <= 8 then [OneByte(bits)]
    else [OneByte(bits[..8])] + Pack(bits[8..])
  }

  /** Bit `k` of a frame; no bit is set behind its end. */
  predicate FrameBit(frame: seq<byte>, k: nat) {
    k / 8 < |frame| && Bit(frame[k / 8], k % 8)
  }

  lemma {:induction false} BitOfPack(bits: seq<bool>, k: nat)
    ensures FrameBit(Pack(bits), k) == (k < |bits| && bits[k])
  {
    if |bits| <= 8 {
      BitOfNumber(bits, k);
    } else if k < 8 {
      BitOfNumber(bits[..8], k);
    } else {
      BitOfPack(bits[8..], k - 8);
    }
  }

  /** A frame that holds the bits and zeros behind them is the packed frame. */
  lemma {:induction false} FrameIsPack(frame: seq<byte>, bits: seq<bool>)
    requires |frame| == Div8Ceil(|bits|)
    requires forall k: nat :: k / 8 < |frame| ==> FrameBit(frame, k) == (k < |bits| && bits[k])
    ensures frame == Pack(bits)
  {
    var pack := Pack(bits);
    forall j | 0 <= j < |frame| ensures frame[j] == pack[j] {
      Pow64();
      forall q | 0 <= q < 8 ensures Bit(frame[j], q) == Bit(pack[j], q) {
        var k := 8 * j + q;
        assert k / 8 == j && k % 8 == q;
        assert FrameBit(frame, k) == (k < |bits| && bits[k]);
        BitOfPack(bits, k);
      }
      SameBits(frame[j], pack[j], 8);
    }
  }

  // ---------------------------------------------------------------- blocks

  /** The exception records from value `i` on. */
  function Patches(vals: seq<u32>, b: nat, i: nat): (out: seq<byte>)
    requires i <= |vals|
    decreases |vals| - i
  {
    if i == |vals| then []
    else (if Exceeds(vals[i], b) then LE16(i) + LE32(vals[i]) else []) + Patches(vals, b, i + 1)
  }

  function Block(vals: seq<u32>): seq<byte>
    requires |vals| <= BLOCK
  {
    var b := Width(vals);
    [b] + LE16(Exceptions(vals, b)) + Pack(Planes(vals, b)) + Patches(vals, b, 0)
  }

  function Blocks(vals: seq<u32>): seq<byte> {
    if vals == [] then []
    else if |vals| <= BLOCK then Block(vals)
    else Block(vals[..BLOCK]) + Blocks(vals[BLOCK..])
  }

  function Encode(deltas: seq<u32>): seq<byte> {
    [VERSION] + LE32(Cut32(|deltas|)) + Blocks(deltas)
  }

  method EncodeU32s(deltas: seq<u32>) returns (out: seq<byte>)
    ensures out == Encode(deltas)
  {
    out := [VERSION];
    out := out + LE32(Cut32(|deltas|));
    out := AppendBlocks(out, deltas);
  }

  method AppendBlocks(head: seq<byte>, deltas: seq<u32>) returns (out: seq<byte>)
    ensures out == head + Blocks(deltas)
  {
    out := head;
    var at := 0;
    assert deltas[0..] == deltas;
    while at < |deltas|
      invariant at <= |deltas|
      invariant out + Blocks(deltas[at..]) == head + Blocks(deltas)
    {
      var end := if at + BLOCK < |deltas| then at + BLOCK else |deltas|;
      NextChunk(deltas, at, end);
      ghost var block, rest := Block(deltas[at..end]), Blocks(deltas[end..]);
      assert out + (block + rest) == out + block + rest;
      out := EncodeBlock(out, deltas[at..end]);
      at := end;
    }
  }

  lemma {:induction false} NextChunk(deltas: seq<u32>, at: nat, end: nat)
    requires at < end <= |deltas|
    requires end == if at + BLOCK < |deltas| then at + BLOCK else |deltas|
    ensures Blocks(deltas[at..]) == Block(deltas[at..end]) + Blocks(deltas[end..])
  {
    var rest := deltas[at..];
    if end < |deltas| {
      assert rest[..BLOCK] == deltas[at..end] && rest[BLOCK..] == deltas[end..];
    } else {
      assert rest == deltas[at..end] && deltas[end..] == [];
    }
  }

  method EncodeBlock(out0: seq<byte>, vals: seq<u32>) returns (out: seq<byte>)
    requires 0 < |vals| <= BLOCK
    ensures out == out0 + Block(vals)
  {
    var b, excCount := ChooseWidth(vals);
    out := out0 + [b];
    out := out + LE16(excCount);
    out := AppendFrame(out, vals, b);
    out := AppendPatches(out, vals, b);
    assert out == out0 + ([b] + LE16(excCount) + Pack(Planes(vals, b)) + Patches(vals, b, 0));
  }

  method AppendFrame(head: seq<byte>, vals: seq<u32>, b: nat) returns (out: seq<byte>)
    requires b <= 32
    ensures out == head + Pack(Planes(vals, b))
  {
    var n := |vals|;
    ghost var bits := Planes(vals, b);
    var frameBytes := Div8Ceil(n * b);
    assert frameBytes == Div8Ceil(|bits|);
    var frameStart := |head|;
    out := head + seq(frameBytes, i => 0);
    ghost var frame: seq<byte> := seq(frameBytes, i => 0);
    ZeroFrame(frame);
    for p := 0 to b
      invariant out == head + frame
      invariant 0 <= p * n && Filled(frame, bits, p * n)
    {
      MulStep(p, n);
      for i := 0 to n
        invariant out == head + frame
        invariant Filled(frame, bits, p * n + i)
      {
        BitInPlanes(vals, b, p, i);
        var bitIndex := p * n + i;
        FillStep(frame, bits, bitIndex);
        if Bit(vals[i], p) {
          var byteIndex := frameStart + bitIndex / 8;
          out := out[byteIndex := SetBit(out[byteIndex], bitIndex % 8)];
          frame := frame[bitIndex / 8 := SetBit(frame[bitIndex / 8], bitIndex % 8)];
        }
      }
    }
    FrameIsPack(frame, bits);
  }

  method AppendPatches(head: seq<byte>, vals: seq<u32>, b: nat) returns (out: seq<byte>)
    ensures out == head + Patches(vals, b, 0)
  {
    out := head;
    for i := 0 to |vals|
      invariant out + Patches(vals, b, i) == head + Patches(vals, b, 0)
    {
      if b < 32 && Shr(vals[i], b) != 0 {
        out := out + LE16(i);
        out := out + LE32(vals[i]);
      }
    }
  }

  /** The frame holds the first `done` bits and zeros behind them. */
  ghost predicate Filled(frame: seq<byte>, bits: seq<bool>, done: nat) {
    && |frame| == Div8Ceil(|bits|) && done <= |bits|
    && forall k: nat {:trigger FrameBit(frame, k)} :: k / 8 < |frame| ==> FrameBit(frame, k) == (k < done && bits[k])
  }

  lemma {:induction false} ZeroFrame(frame: seq<byte>)
    requires forall j :: 0 <= j < |frame| ==> frame[j] == 0
    ensures forall k: nat {:trigger FrameBit(frame, k)} :: k / 8 < |frame| ==> !FrameBit(frame, k)
  {
    forall k: nat | k / 8 < |frame| ensures !FrameBit(frame, k) { BitOfNumber([], k % 8); }
  }

  lemma {:induction false} OrBit(v: byte, p: nat)
    requires p < 8
    ensures SetBit(v, p) < 256
  {
    Pow64();
    SetBitBound(v, p, 8);
  }

  lemma {:induction false} FillStep(frame: seq<byte>, bits: seq<bool>, k: nat)
    requires Filled(frame, bits, k) && k < |bits|
    ensures k / 8 < |frame|
    ensures SetBit(frame[k / 8], k % 8) < 256
    ensures Filled(if bits[k] then frame[k / 8 := SetBit(frame[k / 8], k % 8)] else frame, bits, k + 1)
  {
    OrBit(frame[k / 8], k % 8);
    var next := if bits[k] then frame[k / 8 := SetBit(frame[k / 8], k % 8)] else frame;
    forall j: nat | j / 8 < |frame| ensures FrameBit(next, j) == (j < k + 1 && bits[j]) {
      assert FrameBit(frame, j) == (j < k && bits[j]);
      BitOfSetBit(frame[k / 8], k % 8, j % 8);
      if j / 8 == k / 8 && j % 8 == k % 8 { assert j == k; }
    }
  }

  // ---------------------------------------------------------------- decoding

  /** Value `i` gathered from the first `b` planes. */
  function Gather(frame: seq<byte>, n: nat, i: nat, b: nat): (v: nat)
    ensures b <= 32 ==> v < U32
  {
    Pow64();
    GatherBound(frame, n, i, b);
    GatherBits(frame, n, i, b)
  }

  function GatherBits(frame: seq<byte>, n: nat, i: nat, b: nat): nat {
    if b == 0 then 0
    else
      MulStep(b - 1, n);
      var v := GatherBits(frame, n, i, b - 1);
      if FrameBit(frame, (b - 1) * n + i) then SetBit(v, b - 1) else v
  }

  lemma {:induction false} GatherBound(frame: seq<byte>, n: nat, i: nat, b: nat)
    ensures GatherBits(frame, n, i, b) < Pow2(b)
    ensures b <= 32 ==> Pow2(b) <= Pow2(32)
  {
    if b > 0 {
      GatherBound(frame, n, i, b - 1);
      SetBitBound(GatherBits(frame, n, i, b - 1), b - 1, b);
    }
    if b <= 32 { PowGrows(b, 32); }
  }

  function Gathered(frame: seq<byte>, n: nat, b: nat): (vals: seq<u32>)
    requires b <= 32
    ensures |vals| == n
  {
    seq(n, i requires 0 <= i < n => Gather(frame, n, i, b))
  }

  /** `count` exception records from `pos` on, written over `vals`; `None` when a
      record lies behind the buffer or names no value. */
  function Patched(buf: seq<byte>, pos: nat, count: nat, vals: seq<u32>): (r: Option<(seq<u32>, nat)>)
    ensures r.Some? ==> |r.value.0| == |vals|
    decreases count
  {
    if count == 0 then Some((vals, pos))
    else if pos + 6 > |buf| then None
    else
      var p, v := Read(buf, pos, 2), Read32(buf, pos + 2);
      if p >= |vals| then None else Patched(buf, pos + 6, count - 1, vals[p := v])
  }

  function Read32(buf: seq<byte>, at: nat): u32
    requires at + 4 <= |buf|
  {
    WidthBounds();
    FromLittleBound(buf[at..at + 4]);
    Read(buf, at, 4)
  }

  /** One block of `n` values at `pos`, and the position behind it. */
  function DecodedBlock(buf: seq<byte>, pos: nat, n: nat): (r: Option<(seq<u32>, nat)>)
    ensures r.Some? ==> |r.value.0| == n
  {
    if pos + 3 > |buf| then None
    else
      var b, exc, at := buf[pos], Read(buf, pos + 1, 2), pos + 3;
      if b > 32 || at + Div8Ceil(n * b) > |buf| then None
      else
        var frame := buf[at..at + Div8Ceil(n * b)];
        Patched(buf, at + |frame|, exc, Gathered(frame, n, b))
  }

  function Before(vals: seq<u32>, rest: Option<seq<u32>>): Option<seq<u32>> {
    if rest.None? then None else Some(vals + rest.value)
  }

  function DecodedBlocks(buf: seq<byte>, pos: nat, remaining: nat): (r: Option<seq<u32>>)
    ensures r.Some? ==> |r.value| == remaining
    decreases remaining
  {
    if remaining == 0 then Some([])
    else
      var take := if remaining < BLOCK then remaining else BLOCK;
      match DecodedBlock(buf, pos, take)
      case None => None
      case Some((vals, next)) =>
        Before(vals, DecodedBlocks(buf, next, remaining - take))
  }

  /** Exactly `count` values; `None` stands for an index out of range. */
  function Decode(buf: seq<byte>, count: nat): (r: Option<seq<u32>>)
    ensures r.Some? ==> |r.value| == count
  {
    DecodedBlocks(buf, 5, count)
  }

  method DecodeU32s(buf: seq<byte>, count: nat) returns (r: Option<seq<u32>>)
    ensures r == Decode(buf, count)
  {
    var out: seq<u32> := [];
    var pos: nat, remaining: nat := 5, count;
    ghost var all := Decode(buf, count);
    if all.Some? { assert [] + all.value == all.value; }
    while remaining > 0
      invariant all == Before(out, DecodedBlocks(buf, pos, remaining))
    {
      var take := if remaining < BLOCK then remaining else BLOCK;
      var block := DecodeBlock(buf, pos, take);
      if block.None? { return None; }
      BeforeStep(out, block.value.0, DecodedBlocks(buf, block.value.1, remaining - take));
      out := out + block.value.0;
      pos := block.value.1;
      remaining := remaining - take;
    }
    assert out + [] == out;
    return Some(out);
  }

  lemma {:induction false} BeforeStep(out: seq<u32>, vals: seq<u32>, rest: Option<seq<u32>>)
    ensures Before(out, Before(vals, rest)) == Before(out + vals, rest)
  {
    if rest.Some? { assert out + (vals + rest.value) == out + vals + rest.value; }
  }

  method DecodeBlock(buf: seq<byte>, pos: nat, n: nat) returns (r: Option<(seq<u32>, nat)>)
    ensures r == DecodedBlock(buf, pos, n)
  {
    if pos + 3 > |buf| { return None; }
    var b: nat, excCount: nat, at: nat := buf[pos], Read(buf, pos + 1, 2), pos + 3;
    var frameBytes := Div8Ceil(n * b);
    if b > 32 || at + frameBytes > |buf| { return None; }
    var frame := buf[at..at + frameBytes];
    at := at + frameBytes;
    var vals := UnpackFrame(frame, n, b);
    for k := 0 to excCount
      invariant |vals| == n && forall v :: v in vals ==> 0 <= v < U32
      invariant DecodedBlock(buf, pos, n) == Patched(buf, at, excCount - k, vals)
    {
      if at + 6 > |buf| { return None; }
      var p, v := Read(buf, at, 2), Read32(buf, at + 2);
      at := at + 6;
      if p >= n { return None; }
      vals := vals[p := v];
    }
    return Some((vals, at));
  }

  method UnpackFrame(frame: seq<byte>, n: nat, b: nat) returns (vals: seq<u32>)
    requires b <= 32
    ensures vals == Gathered(frame, n, b)
  {
    vals := seq(n, i => 0);
    for p := 0 to b
      invariant InPlane(vals, frame, n, p, 0)
    {
      vals := UnpackPlane(vals, frame, n, p);
    }
  }

  /** Bit plane `p` into every value. */
  method UnpackPlane(vals0: seq<u32>, frame: seq<byte>, n: nat, p: nat) returns (vals: seq<u32>)
    requires p < 32 && InPlane(vals0, frame, n, p, 0)
    ensures InPlane(vals, frame, n, p + 1, 0)
  {
    vals := vals0;
    MulStep(p, n);
    for i := 0 to n
      invariant InPlane(vals, frame, n, p, i)
    {
      PlaneStep(vals, frame, n, p, i);
      var bitIndex := p * n + i;
      if FrameBit(frame, bitIndex) {
        vals := vals[i := SetBit(vals[i], p)];
      }
    }
    NextPlane(vals, frame, n, p);
  }

  lemma {:induction false} NextPlane(vals: seq<u32>, frame: seq<byte>, n: nat, p: nat)
    requires InPlane(vals, frame, n, p, n)
    ensures InPlane(vals, frame, n, p + 1, 0)
  {
  }

  lemma {:induction false} PlaneStep(vals: seq<u32>, frame: seq<byte>, n: nat, p: nat, i: nat)
    requires InPlane(vals, frame, n, p, i) && i < n && p < 32 && p * n >= 0
    ensures SetBit(vals[i], p) < U32
    ensures InPlane(if FrameBit(frame, p * n + i) then vals[i := SetBit(vals[i], p)] else vals, frame, n, p, i + 1)
  {
    GatherBound(frame, n, i, p);
    Pow64();
    SetBitBound(vals[i], p, p + 1);
    PowGrows(p + 1, 32);
  }

  /** Planes below `p` are gathered, and plane `p` for the values before `i`. */
  ghost predicate InPlane(vals: seq<u32>, frame: seq<byte>, n: nat, p: nat, i: nat) {
    && |vals| == n
    && forall j :: 0 <= j < n ==> vals[j] == GatherBits(frame, n, j, if j < i then p + 1 else p)
  }

  // ---------------------------------------------------------------- round trip

  /** Unpacking the packed planes yields the low bits of each value. */
  lemma {:induction false} GatherOfPlanes(vals: seq<u32>, b: nat, i: nat, c: nat)
    requires i < |vals| && c <= b
    ensures GatherBits(Pack(Planes(vals, b)), |vals|, i, c) == Low(vals[i], c)
  {
    if c > 0 {
      GatherOfPlanes(vals, b, i, c - 1);
      PackedBit(vals, b, c - 1, i);
      LowStep(vals[i], c - 1);
    }
  }

  lemma {:induction false} PackedBit(vals: seq<u32>, b: nat, p: nat, i: nat)
    requires p < b && i < |vals|
    ensures p * |vals| >= 0
    ensures FrameBit(Pack(Planes(vals, b)), p * |vals| + i) == Bit(vals[i], p)
  {
    MulStep(p, |vals|);
    BitInPlanes(vals, b, p, i);
    BitOfPack(Planes(vals, b), p * |vals| + i);
  }

  lemma {:induction false} OnePatch(buf: seq<byte>, at: nat, i: nat, v: u32, rest: seq<byte>, end: nat)
    requires i < U16
    requires end == at + 6 + |rest| <= |buf| && buf[at..end] == LE16(i) + LE32(v) + rest
    ensures Read(buf, at, 2) == i && Read32(buf, at + 2) == v
    ensures buf[at + 6..end] == rest
  {
    WidthBounds();
    Halves(buf, at, LE16(i) + LE32(v), rest);
    Halves(buf, at, LE16(i), LE32(v));
    ReadLittle(buf, at, i, 2);
    ReadLittle(buf, at + 2, v, 4);
  }

  /** Every value is back, but for exceptions at or behind position `i`. */
  ghost predicate RestoredUpTo(cur: seq<u32>, vals: seq<u32>, b: nat, i: nat) {
    && |cur| == |vals|
    && forall j :: 0 <= j < |vals| ==> cur[j] == vals[j] || (i <= j && Exceeds(vals[j], b))
  }

  lemma {:induction false} RestoredNext(cur: seq<u32>, vals: seq<u32>, b: nat, i: nat)
    requires i < |vals| && RestoredUpTo(cur, vals, b, i)
    ensures RestoredUpTo(cur[i := vals[i]], vals, b, i + 1)
    ensures !Exceeds(vals[i], b) ==> RestoredUpTo(cur, vals, b, i + 1)
  {
  }

  lemma {:induction false} RestoredAll(cur: seq<u32>, vals: seq<u32>, b: nat)
    requires RestoredUpTo(cur, vals, b, |vals|)
    ensures cur == vals
  {
  }

  /** Restoring the exceptions from value `i` on leaves every value as encoded. */
  lemma {:induction false} PatchesRestore(buf: seq<byte>, at: nat, vals: seq<u32>, b: nat, i: nat, cur: seq<u32>,
      end: nat)
    requires i <= |vals| <= BLOCK && RestoredUpTo(cur, vals, b, i)
    requires end == at + |Patches(vals, b, i)| <= |buf| && buf[at..end] == Patches(vals, b, i)
    ensures Patched(buf, at, ExceptionsFrom(vals, b, i), cur) == Some((vals, end))
    decreases |vals| - i
  {
    if i == |vals| {
      RestoredAll(cur, vals, b);
    } else {
      RestoredNext(cur, vals, b, i);
      if Exceeds(vals[i], b) {
        OnePatch(buf, at, i, vals[i], Patches(vals, b, i + 1), end);
        PatchesRestore(buf, at + 6, vals, b, i + 1, cur[i := vals[i]], end);
      } else {
        assert Patches(vals, b, i) == [] + Patches(vals, b, i + 1) == Patches(vals, b, i + 1);
        PatchesRestore(buf, at, vals, b, i + 1, cur, end);
      }
    }
  }

  lemma {:induction false} LowParts(vals: seq<u32>, b: nat)
    requires b <= 32
    ensures RestoredUpTo(Gathered(Pack(Planes(vals, b)), |vals|, b), vals, b, 0)
  {
    forall j | 0 <= j < |vals|
      ensures GatherBits(Pack(Planes(vals, b)), |vals|, j, b) == vals[j] || Exceeds(vals[j], b)
    {
      GatherOfPlanes(vals, b, j, b);
      Pow64();
      if b == 32 { ShrOfBounded(vals[j], 32); }
      if !Exceeds(vals[j], b) { LowOfFitting(vals[j], b); }
    }
  }

  lemma {:induction false} BlockParts(buf: seq<byte>, pos: nat, b: byte, exc: nat, frame: seq<byte>, patches: seq<byte>)
    requires exc < U16
    requires var block := [b] + LE16(exc) + frame + patches;
             pos + |block| <= |buf| && buf[pos..pos + |block|] == block
    ensures buf[pos] == b && Read(buf, pos + 1, 2) == exc
    ensures buf[pos + 3..pos + 3 + |frame|] == frame
    ensures buf[pos + 3 + |frame|..pos + 3 + |frame| + |patches|] == patches
  {
    var block := [b] + LE16(exc) + frame + patches;
    WidthBounds();
    assert buf[pos] == block[0];
    SubSlice(buf, pos, block, 1, 3);
    assert block[1..3] == LE16(exc);
    ReadLittle(buf, pos + 1, exc, 2);
    SubSlice(buf, pos, block, 3, 3 + |frame|);
    SubSlice(buf, pos, block, 3 + |frame|, |block|);
  }

  lemma {:induction false} BlockRoundTrip(buf: seq<byte>, pos: nat, vals: seq<u32>)
    requires 0 < |vals| <= BLOCK
    requires pos + |Block(vals)| <= |buf| && buf[pos..pos + |Block(vals)|] == Block(vals)
    ensures DecodedBlock(buf, pos, |vals|) == Some((vals, pos + |Block(vals)|))
  {
    var b := Width(vals);
    var frame, patches := Pack(Planes(vals, b)), Patches(vals, b, 0);
    assert Block(vals) == [b] + LE16(Exceptions(vals, b)) + frame + patches;
    BlockParts(buf, pos, b, Exceptions(vals, b), frame, patches);
    FrameSize(vals, b);
    var at := pos + 3 + |frame|;
    PatchesFromStart(buf, at, vals, b, pos + |Block(vals)|);
    Unfold(buf, pos, |vals|, b, frame, at);
  }

  lemma {:induction false} FrameSize(vals: seq<u32>, b: nat)
    ensures |Pack(Planes(vals, b))| == Div8Ceil(|vals| * b)
  {
    MulCommutes(|vals|, b);
  }

  lemma {:induction false} PatchesFromStart(buf: seq<byte>, at: nat, vals: seq<u32>, b: nat, end: nat)
    requires |vals| <= BLOCK && b <= 32
    requires end == at + |Patches(vals, b, 0)| <= |buf| && buf[at..end] == Patches(vals, b, 0)
    ensures Patched(buf, at, Exceptions(vals, b), Gathered(Pack(Planes(vals, b)), |vals|, b)) == Some((vals, end))
  {
    LowParts(vals, b);
    AllExceptions(vals, b);
    PatchesRestore(buf, at, vals, b, 0, Gathered(Pack(Planes(vals, b)), |vals|, b), end);
  }

  lemma {:induction false} Unfold(buf: seq<byte>, pos: nat, n: nat, b: byte, frame: seq<byte>, at: nat)
    requires b <= 32 && |frame| == Div8Ceil(n * b)
    requires at == pos + 3 + |frame| <= |buf|
    requires buf[pos] == b && buf[pos + 3..at] == frame
    ensures DecodedBlock(buf, pos, n) == Patched(buf, at, Read(buf, pos + 1, 2), Gathered(frame, n, b))
  {
  }

  lemma {:induction false} LastBlock(buf: seq<byte>, pos: nat, vals: seq<u32>)
    requires 0 < |vals| <= BLOCK
    requires pos + |Block(vals)| == |buf| && buf[pos..] == Block(vals)
    ensures DecodedBlocks(buf, pos, |vals|) == Some(vals)
  {
    BlockRoundTrip(buf, pos, vals);
    assert DecodedBlocks(buf, pos + |Block(vals)|, 0) == Some([]);
    assert vals + [] == vals;
  }

  lemma {:induction false} Rejoin(buf: seq<byte>, pos: nat, vals: seq<u32>, first: seq<u32>, rest: seq<u32>, next: nat)
    requires vals == first + rest && |first| == BLOCK && rest != []
    requires next == pos + |Block(first)| <= |buf| && buf[pos..next] == Block(first)
    requires DecodedBlocks(buf, next, |rest|) == Some(rest)
    ensures DecodedBlocks(buf, pos, |vals|) == Some(vals)
  {
    BlockRoundTrip(buf, pos, first);
  }

  lemma {:induction false} FirstBlock(buf: seq<byte>, pos: nat, first: seq<u32>, rest: seq<u32>, next: nat)
    requires |first| == BLOCK && rest != [] && next == pos + |Block(first)|
    requires pos + |Blocks(first + rest)| == |buf| && buf[pos..] == Blocks(first + rest)
    ensures next + |Blocks(rest)| == |buf| && buf[pos..next] == Block(first) && buf[next..] == Blocks(rest)
  {
    assert (first + rest)[..BLOCK] == first && (first + rest)[BLOCK..] == rest;
    Halves(buf, pos, Block(first), Blocks(rest));
  }

  lemma {:induction false} BlocksRoundTrip(buf: seq<byte>, pos: nat, vals: seq<u32>)
    requires pos + |Blocks(vals)| == |buf| && buf[pos..] == Blocks(vals)
    ensures DecodedBlocks(buf, pos, |vals|) == Some(vals)
    decreases |vals|
  {
    if 0 < |vals| <= BLOCK {
      LastBlock(buf, pos, vals);
    } else if |vals| > BLOCK {
      var first, rest := vals[..BLOCK], vals[BLOCK..];
      assert vals == first + rest;
      var next := pos + |Block(first)|;
      FirstBlock(buf, pos, first, rest, next);
      BlocksRoundTrip(buf, next, rest);
      Rejoin(buf, pos, vals, first, rest, next);
    }
  }

  /** Every list of 32-bit values comes back from its encoding. */
  lemma {:induction false} RoundTrip(deltas: seq<u32>)
    ensures Decode(Encode(deltas), |deltas|) == Some(deltas)
  {
    BlocksRoundTrip(Encode(deltas), 5, deltas);
  }

  // ---------------------------------------------------------------- size

  lemma {:induction false} PatchesSize(vals: seq<u32>, b: nat, i: nat)
    requires i <= |vals|
    ensures |Patches(vals, b, i)| == 6 * ExceptionsFrom(vals, b, i)
    decreases |vals| - i
  {
    if i < |vals| { PatchesSize(vals, b, i + 1); }
  }

  /** A block holds as many 6-byte exception records as its header counts, and
      `n` values never take more than `3 + 6n` bytes. */
  lemma {:induction false} BlockSize(vals: seq<u32>)
    requires |vals| <= BLOCK
    ensures var b := Width(vals);
            |Block(vals)| == 3 + Div8Ceil(b * |vals|) + 6 * Exceptions(vals, b)
    ensures |Block(vals)| <= 3 + 6 * |vals|
  {
    var b := Width(vals);
    PatchesSize(vals, b, 0);
    AllExceptions(vals, b);
    forall v | v in vals ensures !Exceeds(v, 32) { }
    NoExceptions(vals, 32);
    CheapestIsLeast(vals, 32, 32);
    MulCommutes(b, |vals|);
  }

  /** The width written in the block header is the least-cost one of all 32, the
      smallest among equals. */
  lemma {:induction false} WidthIsOptimal(vals: seq<u32>, c: nat)
    requires 1 <= c <= 32
    ensures Cost(vals, Width(vals)) <= Cost(vals, c)
    ensures Cost(vals, Width(vals)) == Cost(vals, c) ==> Width(vals) <= c
  {
    CheapestIsLeast(vals, 32, c);
  }
}
