/** Rarest-trigram candidate generation with verification, over any source of
    postings: the filename database, a content shard or the overlay. */
module Candidates {
  import opened Prelude
  import opened Bytes
  import opened Text

  /** What the algorithm needs of a document source. */
  datatype Source = Source(
    numDocs: nat,
    posting: nat -> Result<Option<seq<nat>>>,
    verify: (nat, seq<byte>, bool) -> Result<bool>)

  function UpTo(n: nat): (ds: seq<nat>)
    ensures |ds| == n && forall i :: 0 <= i < n ==> ds[i] == i
  {
    seq(n, i requires 0 <= i < n => i)
  }

  function Filter(ds: seq<nat>, p: nat -> bool): seq<nat> {
    if ds == [] then []
    else (if p(ds[0]) then [ds[0]] else []) + Filter(ds[1..], p)
  }

  ghost predicate Distinct(ds: seq<nat>) {
    forall i, j :: 0 <= i < j < |ds| ==> ds[i] != ds[j]
  }

  // ---------------------------------------------------------------- algorithm

  predicate Full(count: nat, limit: Option<nat>) { limit.Some? && count >= limit.value }

  /** Verified documents of `ds` in order, until `limit` is reached. */
  function Verified(src: Source, ds: seq<nat>, needle: seq<byte>, cs: bool, found: nat,
      limit: Option<nat>): Result<seq<nat>> {
    if ds == [] || Full(found, limit) then Ok([])
    else
      match src.verify(ds[0], needle, cs)
      case Err(e) => Err(e)
      case Ok(false) => Verified(src, ds[1..], needle, cs, found, limit)
      case Ok(true) => Join([ds[0]], Verified(src, ds[1..], needle, cs, found + 1, limit))
  }

  function Join(head: seq<nat>, tail: Result<seq<nat>>): Result<seq<nat>> {
    match tail case Err(e) => Err(e) case Ok(s) => Ok(head + s)
  }

  /** The shortest posting of `tris`, the first among equals; nothing as soon as a
      trigram has no posting. */
  function Rarest(src: Source, tris: seq<nat>, best: Option<seq<nat>>): Result<seq<nat>> {
    if tris == [] then Ok(if best.Some? then best.value else [])
    else
      match src.posting(tris[0])
      case Err(e) => Err(e)
      case Ok(None) => Ok([])
      case Ok(Some(post)) => Rarest(src, tris[1..], Some(Shorter(best, post)))
  }

  function Shorter(best: Option<seq<nat>>, post: seq<nat>): seq<nat> {
    if best.None? || |post| < |best.value| then post else best.value
  }

  function Candidates(src: Source, folded: seq<byte>, original: seq<byte>, cs: bool,
      limit: Option<nat>): Result<seq<nat>> {
    var needle := if cs then original else folded;
    if |folded| < 3 then Verified(src, UpTo(src.numDocs), needle, cs, 0, limit)
    else
      match Rarest(src, Trigrams(folded), None)
      case Err(e) => Err(e)
      case Ok(ds) => Verified(src, ds, needle, cs, 0, limit)
  }

  method ComputeCandidates(src: Source, folded: seq<byte>, original: seq<byte>, cs: bool, limit: Option<nat>)
    returns (r: Result<seq<nat>>)
    ensures r == Candidates(src, folded, original, cs, limit)
  {
    var needle := if cs then original else folded;
    if |folded| < 3 {
      r := VerifyAll(src, UpTo(src.numDocs), needle, cs, limit);
      return;
    }
    var qtris := ExtractTrigrams(folded);
    var best: Option<seq<nat>> := None;
    assert qtris[0..] == qtris;
    for i := 0 to |qtris|
      invariant Rarest(src, qtris, None) == Rarest(src, qtris[i..], best)
    {
      assert qtris[i..][1..] == qtris[i + 1..];
      match src.posting(qtris[i]) {
        case Err(e) => return Err(e);
        case Ok(None) =>
          assert Verified(src, [], needle, cs, 0, limit) == Ok([]);
          return Ok([]);
        case Ok(Some(post)) =>
          if best.None? || |post| < |best.value| { best := Some(post); }
      }
    }
    r := VerifyAll(src, if best.Some? then best.value else [], needle, cs, limit);
  }

  method VerifyAll(src: Source, ds: seq<nat>, needle: seq<byte>, cs: bool, limit: Option<nat>)
    returns (r: Result<seq<nat>>)
    ensures r == Verified(src, ds, needle, cs, 0, limit)
  {
    var out: seq<nat> := [];
    assert ds[0..] == ds;
    JoinEmpty(out, Verified(src, ds, needle, cs, 0, limit));
    for i := 0 to |ds|
      invariant Verified(src, ds, needle, cs, 0, limit) == Join(out, Verified(src, ds[i..], needle, cs, |out|, limit))
    {
      assert ds[i..][1..] == ds[i + 1..];
      JoinEmpty(out, Ok([]));
      if Full(|out|, limit) { return Ok(out); }
      match src.verify(ds[i], needle, cs) {
        case Err(e) => return Err(e);
        case Ok(hit) =>
          if hit {
            JoinMore(out, ds[i], Verified(src, ds[i + 1..], needle, cs, |out| + 1, limit));
            out := out + [ds[i]];
          }
      }
    }
    JoinEmpty(out, Ok([]));
    return Ok(out);
  }

  lemma {:induction false} JoinEmpty(out: seq<nat>, r: Result<seq<nat>>)
    ensures Join([], r) == r && Join(out, Ok([])) == Ok(out)
  {
    assert out + [] == out;
    assert r.Ok? ==> [] + r.value == r.value;
  }

  lemma {:induction false} JoinMore(out: seq<nat>, d: nat, r: Result<seq<nat>>)
    ensures Join(out, Join([d], r)) == Join(out + [d], r)
  {
    assert r.Ok? ==> out + ([d] + r.value) == out + [d] + r.value;
  }

  // ---------------------------------------------------------------- correctness

  /** Each posting lists, each once, exactly the texts that have the trigram. */
  ghost predicate Lists(src: Source, texts: seq<seq<byte>>) {
    forall t: nat {:trigger src.posting(t)} :: PostingFor(src.posting(t), texts, t)
  }

  ghost predicate PostingFor(r: Result<Option<seq<nat>>>, texts: seq<seq<byte>>, t: nat) {
    && r.Ok?
    && (r.value.None? ==> forall d :: 0 <= d < |texts| ==> !HasTrigram(texts[d], t))
    && (r.value.Some? ==>
          && Distinct(r.value.value)
          && forall d: nat :: d in r.value.value <==> d < |texts| && HasTrigram(texts[d], t))
  }

  /** The source answers for documents with the given folded texts, and verifying
      says `hit`, which never accepts a text without the folded needle. */
  ghost predicate Faithful(src: Source, texts: seq<seq<byte>>, hit: nat -> bool, folded: seq<byte>, needle: seq<byte>,
      cs: bool) {
    && src.numDocs == |texts| && Lists(src, texts)
    && forall d: nat :: d < |texts| ==>
         src.verify(d, needle, cs) == Ok(hit(d)) && (hit(d) ==> Contains(texts[d], folded))
  }

  /** A list of documents, each once, that misses none containing `folded`. */
  ghost predicate Covers(ds: seq<nat>, texts: seq<seq<byte>>, folded: seq<byte>) {
    && Distinct(ds)
    && (forall d :: d in ds ==> d < |texts|)
    && forall d: nat :: d < |texts| && Contains(texts[d], folded) ==> d in ds
  }

  lemma {:induction false} PostingCovers(src: Source, texts: seq<seq<byte>>, folded: seq<byte>, t: nat)
    requires Lists(src, texts) && HasTrigram(folded, t)
    ensures src.posting(t).Ok?
    ensures src.posting(t).value.None? ==> Covers([], texts, folded)
    ensures src.posting(t).value.Some? ==> Covers(src.posting(t).value.value, texts, folded)
  {
    assert PostingFor(src.posting(t), texts, t);
    forall d: nat | d < |texts| && Contains(texts[d], folded) ensures HasTrigram(texts[d], t) {
      TrigramsOfPart(texts[d], folded, t);
    }
  }

  /** Whichever posting is shortest, it covers; and if all are ascending, so is it. */
  lemma {:induction false} RarestCovers(src: Source, texts: seq<seq<byte>>, folded: seq<byte>, tris: seq<nat>,
      best: Option<seq<nat>>)
    requires Lists(src, texts) && forall t :: t in tris ==> HasTrigram(folded, t)
    requires best.None? ==> tris != []
    requires best.Some? ==> Covers(best.value, texts, folded)
    ensures var r := Rarest(src, tris, best);
            && r.Ok? && Covers(r.value, texts, folded)
            && ((best.Some? ==> Ascending(best.value)) && AllAscending(src) ==> Ascending(r.value))
  {
    if tris != [] {
      PostingCovers(src, texts, folded, tris[0]);
      match src.posting(tris[0])
      case Ok(None) =>
      case Ok(Some(post)) =>
        assert AllAscending(src) ==> Ascending(post);
        RarestCovers(src, texts, folded, tris[1..], Some(Shorter(best, post)));
    }
  }

  ghost predicate AllAscending(src: Source) {
    forall t: nat {:trigger src.posting(t)} ::
      src.posting(t).Ok? && src.posting(t).value.Some? ==> Ascending(src.posting(t).value.value)
  }

  /** The chosen list is as short as any posting of the query's trigrams. */
  lemma {:induction false} RarestIsShortest(src: Source, tris: seq<nat>, best: Option<seq<nat>>, t: nat)
    requires Rarest(src, tris, best).Ok?
    requires t in tris && src.posting(t).Ok? && src.posting(t).value.Some?
    ensures |Rarest(src, tris, best).value| <= |src.posting(t).value.value|
  {
    if src.posting(tris[0]).value.Some? {
      var next := Shorter(best, src.posting(tris[0]).value.value);
      RarestNoLonger(src, tris[1..], next);
      if t in tris[1..] { RarestIsShortest(src, tris[1..], Some(next), t); }
    }
  }

  lemma {:induction false} RarestNoLonger(src: Source, tris: seq<nat>, best: seq<nat>)
    requires Rarest(src, tris, Some(best)).Ok?
    ensures |Rarest(src, tris, Some(best)).value| <= |best|
  {
    if tris != [] && src.posting(tris[0]).value.Some? {
      RarestNoLonger(src, tris[1..], Shorter(Some(best), src.posting(tris[0]).value.value));
    }
  }

  lemma {:induction false} VerifiedIsFilter(src: Source, ds: seq<nat>, hit: nat -> bool, needle: seq<byte>, cs: bool,
      found: nat, limit: Option<nat>)
    requires forall d :: d in ds ==> src.verify(d, needle, cs) == Ok(hit(d))
    requires limit.Some? ==> found <= limit.value
    ensures Verified(src, ds, needle, cs, found, limit)
         == Ok(Cap(Filter(ds, hit), if limit.Some? then Some(limit.value - found) else None))
  {
    if ds != [] && !Full(found, limit) {
      assert src.verify(ds[0], needle, cs) == Ok(hit(ds[0]));
      VerifiedIsFilter(src, ds[1..], hit, needle, cs, if hit(ds[0]) then found + 1 else found, limit);
      var f := Filter(ds[1..], hit);
      assert [] + f == f;
      if hit(ds[0]) && limit.Some? {
        var k := limit.value - found;
        assert Take([ds[0]] + f, k) == [ds[0]] + Take(f, k - 1);
      }
    }
  }

  lemma {:induction false} FilterExact(ds: seq<nat>, p: nat -> bool)
    ensures forall d :: d in Filter(ds, p) <==> d in ds && p(d)
    ensures Distinct(ds) ==> Distinct(Filter(ds, p))
    ensures Ascending(ds) ==> Ascending(Filter(ds, p))
  {
    if ds != [] {
      FilterExact(ds[1..], p);
      var f := Filter(ds[1..], p);
      forall i | 0 <= i < |f| ensures f[i] in ds[1..] { assert f[i] in f; }
      if Distinct(ds) || Ascending(ds) {
        forall x | x in ds[1..] ensures (Distinct(ds) ==> x != ds[0]) && (Ascending(ds) ==> ds[0] < x) { }
      }
    }
  }

  lemma {:induction false} FilterConcat(a: seq<nat>, b: seq<nat>, p: nat -> bool)
    ensures Filter(a + b, p) == Filter(a, p) + Filter(b, p)
  {
    if a == [] {
      assert a + b == b;
    } else {
      assert (a + b)[1..] == a[1..] + b && (a + b)[0] == a[0];
      FilterConcat(a[1..], b, p);
      var head: seq<nat> := if p(a[0]) then [a[0]] else [];
      assert head + (Filter(a[1..], p) + Filter(b, p)) == head + Filter(a[1..], p) + Filter(b, p);
    }
  }

  /** The documents found, in the order of the list that was scanned.  Every hit is
      in that list once, so only the order and the cap can differ from a scan. */
  lemma {:induction false} CandidatesComplete(src: Source, texts: seq<seq<byte>>, hit: nat -> bool, folded: seq<byte>,
      original: seq<byte>, cs: bool, limit: Option<nat>)
    returns (ds: seq<nat>)
    requires Faithful(src, texts, hit, folded, if cs then original else folded, cs)
    ensures Covers(ds, texts, folded) && (AllAscending(src) ==> Ascending(ds))
    ensures Candidates(src, folded, original, cs, limit) == Ok(Cap(Filter(ds, hit), limit))
    ensures forall d: nat :: d in Filter(ds, hit) <==> d < |texts| && hit(d)
  {
    var needle := if cs then original else folded;
    if |folded| < 3 {
      ds := UpTo(src.numDocs);
      forall d: nat | d < |texts| ensures d in ds { assert ds[d] == d; }
    } else {
      TrigramsExact(folded);
      RarestCovers(src, texts, folded, Trigrams(folded), None);
      ds := Rarest(src, Trigrams(folded), None).value;
    }
    VerifiedIsFilter(src, ds, hit, needle, cs, 0, limit);
    FilterExact(ds, hit);
  }

  /** The linear scan that the index must agree with. */
  function Scan(n: nat, hit: nat -> bool, limit: Option<nat>): seq<nat> {
    Cap(Filter(UpTo(n), hit), limit)
  }

  /** With ascending postings, candidate generation is the linear scan: the first
      `limit` hits in document order. */
  lemma {:induction false} CandidatesAreScan(src: Source, texts: seq<seq<byte>>, hit: nat -> bool, folded: seq<byte>,
      original: seq<byte>, cs: bool, limit: Option<nat>)
    requires Faithful(src, texts, hit, folded, if cs then original else folded, cs) && AllAscending(src)
    ensures Candidates(src, folded, original, cs, limit) == Ok(Scan(|texts|, hit, limit))
  {
    var ds := CandidatesComplete(src, texts, hit, folded, original, cs, limit);
    FilterExact(ds, hit);
    FilterExact(UpTo(|texts|), hit);
    forall d: nat | d < |texts| ensures d in UpTo(|texts|) { assert UpTo(|texts|)[d] == d; }
    AscendingUnique(Filter(ds, hit), Filter(UpTo(|texts|), hit));
  }
}
