/** Boolean filename queries over the database, and the query entry point that
    chooses between them and a plain substring search. */
module BoolQuery {
  import opened Prelude
  import opened Bytes
  import opened Text
  import opened TrigramIndex
  import opened BoolParse
  import opened Grammar
  import opened FileDb
  import Candidates

  /** Whether one path matches one term. */
  predicate Matches(path: seq<byte>, term: seq<byte>, cs: bool) {
    if cs then Contains(path, term) else Contains(Fold(path), Fold(term))
  }

  /** A path matches when it has the term as a part. */
  lemma {:induction false} MatchIsPart(path: seq<byte>, term: seq<byte>, cs: bool)
    ensures Matches(path, term, cs) <==> HasPart(path, term, cs)
  {
    if cs { ContainsPart(path, term); } else { FoldedPart(path, term); }
  }

  // ---------------------------------------------------------------- evaluation

  /** The documents of `ds` whose path matches `term`. */
  function MatchSet(img: Image, z: Zstd, ds: seq<nat>, term: seq<byte>, cs: bool): Result<set<nat>> {
    if ds == [] then Ok({})
    else
      match img.DocPath(z, ds[0])
      case Err(e) => Err(e)
      case Ok(p) => Insert(if Matches(p, term, cs) then {ds[0]} else {}, MatchSet(img, z, ds[1..], term, cs))
  }

  function Insert(s: set<nat>, rest: Result<set<nat>>): Result<set<nat>> {
    match rest case Err(e) => Err(e) case Ok(t) => Ok(s + t)
  }

  function TermSet(img: Image, z: Zstd, h: nat -> nat, term: seq<byte>, cs: bool): Result<set<nat>> {
    if term == [] then Ok({})
    else if |term| < 3 then MatchSet(img, z, Candidates.UpTo(img.numDocs), term, cs)
    else
      match Candidates.Rarest(img.Source(z, h), Trigrams(Fold(term)), None)
      case Err(e) => Err(e)
      case Ok(ds) => MatchSet(img, z, ds, term, cs)
  }

  function Eval(img: Image, z: Zstd, h: nat -> nat, n: Ast, cs: bool): Result<set<nat>> {
    match n
    case Term(w) => TermSet(img, z, h, w, cs)
    case Not(i) =>
      (match Eval(img, z, h, i, cs)
       case Err(e) => Err(e)
       case Ok(s) => Ok(set d | d in Candidates.UpTo(img.numDocs) && d !in s))
    case And(a, b) => Combine(Eval(img, z, h, a, cs), Eval(img, z, h, b, cs), (s: set<nat>, t: set<nat>) => s * t)
    case Or(a, b) => Combine(Eval(img, z, h, a, cs), Eval(img, z, h, b, cs), (s: set<nat>, t: set<nat>) => s + t)
  }

  function Combine(a: Result<set<nat>>, b: Result<set<nat>>, op: (set<nat>, set<nat>) -> set<nat>): Result<set<nat>> {
    match (a, b)
    case (Err(e), _) => Err(e)
    case (_, Err(e)) => Err(e)
    case (Ok(s), Ok(t)) => Ok(op(s, t))
  }

  method CollectMatches(db: DbReader, ds: seq<nat>, term: seq<byte>, cs: bool) returns (r: Result<set<nat>>)
    requires db.Valid()
    modifies db
    ensures db.Valid() && r == MatchSet(db.img, db.z, ds, term, cs)
  {
    var found: set<nat> := {};
    ghost var all := MatchSet(db.img, db.z, ds, term, cs);
    assert ds[0..] == ds;
    assert all.Ok? ==> {} + all.value == all.value;
    for i := 0 to |ds|
      invariant db.Valid() && all == Insert(found, MatchSet(db.img, db.z, ds[i..], term, cs))
    {
      assert ds[i..][1..] == ds[i + 1..];
      var p := db.DocPath(ds[i]);
      if p.Err? { return Err(p.error); }
      ghost var rest := MatchSet(db.img, db.z, ds[i + 1..], term, cs);
      ghost var now: set<nat> := if Matches(p.value, term, cs) then {ds[i]} else {};
      assert rest.Ok? ==> found + (now + rest.value) == found + now + rest.value;
      if Matches(p.value, term, cs) { found := found + {ds[i]}; }
      assert found + {} == found;
    }
    assert found + {} == found;
    return Ok(found);
  }

  method TermDocids(db: DbReader, h: nat -> nat, term: seq<byte>, cs: bool) returns (r: Result<set<nat>>)
    requires db.Valid()
    modifies db
    ensures db.Valid() && r == TermSet(db.img, db.z, h, term, cs)
  {
    var lower := Fold(term);
    if term == [] { return Ok({}); }
    if |lower| < 3 {
      r := CollectMatches(db, Candidates.UpTo(db.img.numDocs), term, cs);
      return;
    }
    var qtris := ExtractTrigrams(lower);
    var best := BestPosting(db.img, db.z, h, qtris);
    if best.Err? { return Err(best.error); }
    r := CollectMatches(db, best.value, term, cs);
  }

  /** The shortest posting of the trigrams; empty as soon as one has none. */
  method BestPosting(img: Image, ghost z: Zstd, h: nat -> nat, qtris: seq<nat>) returns (r: Result<seq<nat>>)
    ensures r == Candidates.Rarest(img.Source(z, h), qtris, None)
  {
    var best: Option<seq<nat>> := None;
    ghost var src := img.Source(z, h);
    assert qtris[0..] == qtris;
    for i := 0 to |qtris|
      invariant Candidates.Rarest(src, qtris, None) == Candidates.Rarest(src, qtris[i..], best)
    {
      assert qtris[i..][1..] == qtris[i + 1..];
      match img.Posting(h, qtris[i]) {
        case Err(e) => return Err(e);
        case Ok(None) => return Ok([]);
        case Ok(Some(post)) =>
          if best.None? || |post| < |best.value| { best := Some(post); }
      }
    }
    return Ok(if best.Some? then best.value else []);
  }

  method Evaluate(db: DbReader, h: nat -> nat, n: Ast, cs: bool) returns (r: Result<set<nat>>)
    requires db.Valid()
    modifies db
    ensures db.Valid() && r == Eval(db.img, db.z, h, n, cs)
    decreases n
  {
    match n {
      case Term(w) => r := TermDocids(db, h, w, cs);
      case Not(i) =>
        r := Evaluate(db, h, i, cs);
        if r.Ok? { r := Ok(set d | d in Candidates.UpTo(db.img.numDocs) && d !in r.value); }
      case And(a, b) =>
        r := Evaluate(db, h, a, cs);
        if r.Err? { return; }
        var s := Evaluate(db, h, b, cs);
        if s.Err? { return s; }
        r := Ok(r.value * s.value);
      case Or(a, b) =>
        r := Evaluate(db, h, a, cs);
        if r.Err? { return; }
        var s := Evaluate(db, h, b, cs);
        if s.Err? { return s; }
        r := Ok(r.value + s.value);
    }
  }

  predicate Least(s: set<nat>, m: nat) { m in s && forall x :: x in s ==> m <= x }

  lemma {:induction false} HasLeast(s: set<nat>, x: nat)
    requires x in s
    ensures exists m :: Least(s, m)
    decreases x
  {
    if !Least(s, x) {
      var y :| y in s && y < x;
      HasLeast(s, y);
    }
  }

  /** The elements of a set in the order a sorted set yields them. */
  function InOrder(s: set<nat>): (r: seq<nat>)
    decreases |s|
  {
    if s == {} then []
    else
      assert exists m :: Least(s, m) by { var x :| x in s; HasLeast(s, x); }
      var m: nat :| Least(s, m);
      [m] + InOrder(s - {m})
  }

  lemma {:induction false} InOrderExact(s: set<nat>)
    ensures Ascending(InOrder(s)) && forall x :: x in InOrder(s) <==> x in s
    decreases |s|
  {
    if s != {} {
      var m := FirstInOrder(s);
      InOrderExact(s - {m});
      Prepend(m, InOrder(s - {m}));
    }
  }

  lemma {:induction false} FirstInOrder(s: set<nat>) returns (m: nat)
    requires s != {}
    ensures Least(s, m) && InOrder(s) == [m] + InOrder(s - {m})
  {
    m := InOrder(s)[0];
  }

  lemma {:induction false} Prepend(m: nat, rest: seq<nat>)
    requires Ascending(rest) && forall x :: x in rest ==> m < x
    ensures Ascending([m] + rest) && forall x :: x in [m] + rest <==> x == m || x in rest
  {
    forall i | 0 <= i < |rest| ensures m < rest[i] { assert rest[i] in rest; }
  }

  method BooleanDocids(db: DbReader, h: nat -> nat, n: Ast, cs: bool, limit: Option<nat>) returns (r: Result<seq<nat>>)
    requires db.Valid()
    modifies db
    ensures db.Valid()
    ensures r == BooleanResult(db.img, db.z, h, n, cs, limit)
  {
    var docids := Evaluate(db, h, n, cs);
    if docids.Err? { return Err(docids.error); }
    return Ok(Cap(InOrder(docids.value), limit));
  }

  function BooleanResult(img: Image, z: Zstd, h: nat -> nat, n: Ast, cs: bool, limit: Option<nat>): Result<seq<nat>> {
    match Eval(img, z, h, n, cs)
    case Err(e) => Err(e)
    case Ok(s) => Ok(Cap(InOrder(s), limit))
  }

  // ---------------------------------------------------------------- meaning

  /** The declarative meaning of a formula about one path; an empty term holds of none. */
  predicate Satisfies(path: seq<byte>, n: Ast, cs: bool) {
    match n
    case Term(w) => w != [] && Matches(path, w, cs)
    case Not(i) => !Satisfies(path, i, cs)
    case And(a, b) => Satisfies(path, a, cs) && Satisfies(path, b, cs)
    case Or(a, b) => Satisfies(path, a, cs) || Satisfies(path, b, cs)
  }

  function Satisfying(docs: seq<Doc>, n: Ast, cs: bool): nat -> bool {
    (d: nat) => d < |docs| && Satisfies(docs[d].path, n, cs)
  }

  lemma {:induction false} MatchSetExact(img: Image, z: Zstd, h: nat -> nat, docs: seq<Doc>, ds: seq<nat>,
      term: seq<byte>, cs: bool)
    requires Answers(img, z, h, docs) && forall d :: d in ds ==> d < |docs|
    ensures var r := MatchSet(img, z, ds, term, cs);
            r.Ok? && forall d: nat :: d in r.value <==> d in ds && Matches(docs[d].path, term, cs)
  {
    if ds != [] {
      assert ds[0] in ds && img.DocPath(z, ds[0]) == Ok(docs[ds[0]].path);
      forall d | d in ds[1..] ensures d < |docs| { assert d in ds; }
      MatchSetExact(img, z, h, docs, ds[1..], term, cs);
      assert ds == [ds[0]] + ds[1..];
    }
  }

  lemma {:induction false} MatchesFolded(path: seq<byte>, term: seq<byte>, cs: bool)
    requires Matches(path, term, cs)
    ensures Contains(Fold(path), Fold(term))
  {
    if cs { FoldContains(path, term); }
  }

  lemma {:induction false} AllDocids(n: nat)
    ensures forall d: nat :: d in Candidates.UpTo(n) <==> d < n
  {
    forall d: nat | d < n ensures d in Candidates.UpTo(n) { assert Candidates.UpTo(n)[d] == d; }
  }

  /** One term: exactly the documents whose path matches, on both the scanning and
      the posting path. */
  lemma {:induction false} TermExact(img: Image, z: Zstd, h: nat -> nat, docs: seq<Doc>, term: seq<byte>, cs: bool)
    requires Answers(img, z, h, docs)
    ensures var r := TermSet(img, z, h, term, cs);
            r.Ok? && forall d: nat :: d in r.value <==> d < |docs| && Satisfies(docs[d].path, Term(term), cs)
  {
    if 0 < |term| < 3 {
      AllDocids(|docs|);
      MatchSetExact(img, z, h, docs, Candidates.UpTo(|docs|), term, cs);
    } else if |term| >= 3 {
      var src, folded := img.Source(z, h), Fold(term);
      SourceLists(img, z, h, docs);
      TrigramsExact(folded);
      Candidates.RarestCovers(src, Lowered(docs), folded, Trigrams(folded), None);
      var ds := Candidates.Rarest(src, Trigrams(folded), None).value;
      MatchSetExact(img, z, h, docs, ds, term, cs);
      forall d: nat | d < |docs| && Matches(docs[d].path, term, cs) ensures d in ds {
        MatchesFolded(docs[d].path, term, cs);
        assert Contains(Lowered(docs)[d], folded);
      }
    }
  }

  lemma {:induction false} EvalExact(img: Image, z: Zstd, h: nat -> nat, docs: seq<Doc>, n: Ast, cs: bool)
    requires Answers(img, z, h, docs)
    ensures var r := Eval(img, z, h, n, cs);
            r.Ok? && forall d: nat :: d in r.value <==> d < |docs| && Satisfies(docs[d].path, n, cs)
  {
    match n
    case Term(w) => TermExact(img, z, h, docs, w, cs);
    case Not(i) => EvalExact(img, z, h, docs, i, cs); AllDocids(|docs|);
    case And(a, b) => EvalExact(img, z, h, docs, a, cs); EvalExact(img, z, h, docs, b, cs);
    case Or(a, b) => EvalExact(img, z, h, docs, a, cs); EvalExact(img, z, h, docs, b, cs);
  }

  /** A boolean query returns, ascending and cut to the limit, exactly the documents
      whose path satisfies the formula. */
  lemma {:induction false} BooleanIsScan(img: Image, z: Zstd, h: nat -> nat, docs: seq<Doc>, n: Ast, cs: bool,
      limit: Option<nat>)
    requires Answers(img, z, h, docs)
    ensures BooleanResult(img, z, h, n, cs, limit) == Ok(Candidates.Scan(|docs|, Satisfying(docs, n, cs), limit))
  {
    EvalExact(img, z, h, docs, n, cs);
    var s := Eval(img, z, h, n, cs).value;
    InOrderExact(s);
    var all := Candidates.UpTo(|docs|);
    AllDocids(|docs|);
    Candidates.FilterExact(all, Satisfying(docs, n, cs));
    AscendingUnique(InOrder(s), Candidates.Filter(all, Satisfying(docs, n, cs)));
  }

  // ---------------------------------------------------------------- entry point

  /** A text with operators is a formula; any other text is searched for as it is. */
  function QueryDocids(img: Image, z: Zstd, h: nat -> nat, q: seq<byte>, cs: bool,
      limit: Option<nat>): Result<seq<nat>> {
    if q == [] then Ok([])
    else
      match Parse(q)
      case Some(Term(_)) => Candidates.Candidates(img.Source(z, h), Fold(q), q, cs, limit)
      case Some(n) => BooleanResult(img, z, h, n, cs, limit)
      case None => Candidates.Candidates(img.Source(z, h), Fold(q), q, cs, limit)
  }

  method ComputeDocids(db: DbReader, h: nat -> nat, q: seq<byte>, cs: bool, limit: Option<nat>)
    returns (r: Result<seq<nat>>)
    requires db.Valid()
    modifies db
    ensures db.Valid() && r == QueryDocids(db.img, db.z, h, q, cs, limit)
  {
    if q == [] { return Ok([]); }
    var parsed := ParseQuery(q);
    if parsed.Some? && !parsed.value.Term? {
      r := BooleanDocids(db, h, parsed.value, cs, limit);
    } else {
      r := Candidates.ComputeCandidates(db.img.Source(db.z, h), Fold(q), q, cs, limit);
    }
  }

  /** What a filename query means for one path. */
  predicate Selects(path: seq<byte>, q: seq<byte>, cs: bool) {
    && q != []
    && if Parse(q).Some? && !Parse(q).value.Term? then Satisfies(path, Parse(q).value, cs)
       else Matches(path, q, cs)
  }

  function Selected(docs: seq<Doc>, q: seq<byte>, cs: bool): nat -> bool {
    (d: nat) => d < |docs| && Selects(docs[d].path, q, cs)
  }

  lemma {:induction false} SameScan(n: nat, p: nat -> bool, q: nat -> bool, limit: Option<nat>)
    requires forall d: nat :: d < n ==> p(d) == q(d)
    ensures Candidates.Scan(n, p, limit) == Candidates.Scan(n, q, limit)
  {
    SameFilter(Candidates.UpTo(n), p, q);
  }

  lemma {:induction false} SameFilter(ds: seq<nat>, p: nat -> bool, q: nat -> bool)
    requires forall d :: d in ds ==> p(d) == q(d)
    ensures Candidates.Filter(ds, p) == Candidates.Filter(ds, q)
  {
    if ds != [] { SameFilter(ds[1..], p, q); }
  }

  lemma {:induction false} NoneFiltered(ds: seq<nat>)
    ensures Candidates.Filter(ds, (d: nat) => false) == []
  {
    if ds != [] { NoneFiltered(ds[1..]); }
  }

  /** Every query text, empty, well-formed or not, returns the first `limit` documents that
      a scan of the inserted paths selects. */
  lemma {:induction false} QueryIsScan(img: Image, z: Zstd, h: nat -> nat, docs: seq<Doc>, q: seq<byte>, cs: bool,
      limit: Option<nat>)
    requires Answers(img, z, h, docs)
    ensures QueryDocids(img, z, h, q, cs, limit) == Ok(Candidates.Scan(|docs|, Selected(docs, q, cs), limit))
  {
    if q == [] {
      SameFilter(Candidates.UpTo(|docs|), Selected(docs, q, cs), (d: nat) => false);
      NoneFiltered(Candidates.UpTo(|docs|));
    } else if Parse(q).Some? && !Parse(q).value.Term? {
      BooleanIsScan(img, z, h, docs, Parse(q).value, cs, limit);
      SameScan(|docs|, Satisfying(docs, Parse(q).value, cs), Selected(docs, q, cs), limit);
    } else {
      var needle := if cs then q else Fold(q);
      FileDb.SearchIsScan(img, z, h, docs, q, cs, limit);
      SameScan(|docs|, Hits(docs, needle, cs), Selected(docs, q, cs), limit);
    }
  }

  // ---------------------------------------------------------------- what a user types

  /** Which paths a text with an operator selects, by what stands beside the operator. */
  lemma {:induction false} OperatorsSelect(path: seq<byte>, a: seq<byte>, m: Ast, b: seq<byte>, n: Ast, cs: bool)
    requires Typed(a, m) && Typed(b, n)
    ensures Selects(path, a + Ascii(" AND ") + b, cs) <==> Satisfies(path, m, cs) && Satisfies(path, n, cs)
    ensures Selects(path, a + Ascii(" OR ") + b, cs) <==> Satisfies(path, m, cs) || Satisfies(path, n, cs)
    ensures Selects(path, a + Ascii(" ") + b, cs) <==> Satisfies(path, m, cs) && Satisfies(path, n, cs)
    ensures Selects(path, Ascii("NOT ") + a, cs) <==> !Satisfies(path, m, cs)
  {
    Operators(a, m, b, n);
    assert Ascii(" ") == [32];
    ReadSelects(path, a + Ascii(" AND ") + b, And(m, n), cs);
    ReadSelects(path, a + Ascii(" OR ") + b, Or(m, n), cs);
    ReadSelects(path, a + Ascii(" ") + b, And(m, n), cs);
    ReadSelects(path, Ascii("NOT ") + a, Not(m), cs);
  }

  lemma {:induction false} ReadSelects(path: seq<byte>, q: seq<byte>, n: Ast, cs: bool)
    requires q != [] && Parse(q) == Some(n) && !n.Term?
    ensures Selects(path, q, cs) <==> Satisfies(path, n, cs)
  {
  }

  /** The documents that a query returns without a limit. */
  function Returned(img: Image, z: Zstd, h: nat -> nat, q: seq<byte>, cs: bool): set<nat> {
    match QueryDocids(img, z, h, q, cs, None) case Ok(ds) => (set d | d in ds) case Err(_) => {}
  }

  lemma {:induction false} ReturnedExact(img: Image, z: Zstd, h: nat -> nat, docs: seq<Doc>, q: seq<byte>, cs: bool,
      d: nat)
    requires Answers(img, z, h, docs)
    ensures d in Returned(img, z, h, q, cs) <==> d < |docs| && Selects(docs[d].path, q, cs)
  {
    QueryIsScan(img, z, h, docs, q, cs, None);
    AllDocids(|docs|);
    Candidates.FilterExact(Candidates.UpTo(|docs|), Selected(docs, q, cs));
  }

  /** For two words: `AND` and a blank return the documents whose path matches both, `OR`
      those whose path matches one, and `NOT` the others. */
  lemma {:induction false} WordsReturned(img: Image, z: Zstd, h: nat -> nat, docs: seq<Doc>, a: seq<byte>, b: seq<byte>,
      cs: bool, d: nat)
    requires Answers(img, z, h, docs) && d < |docs| && BoolParse.PlainWord(a) && BoolParse.PlainWord(b)
    ensures var inA, inB := Matches(docs[d].path, a, cs), Matches(docs[d].path, b, cs);
            && (d in Returned(img, z, h, a + Ascii(" AND ") + b, cs) <==> inA && inB)
            && (d in Returned(img, z, h, a + Ascii(" ") + b, cs) <==> inA && inB)
            && (d in Returned(img, z, h, a + Ascii(" OR ") + b, cs) <==> inA || inB)
            && (d in Returned(img, z, h, Ascii("NOT ") + a, cs) <==> !inA)
  {
    OperatorsSelect(docs[d].path, a, Term(a), b, Term(b), cs);
    ReturnedExact(img, z, h, docs, a + Ascii(" AND ") + b, cs, d);
    ReturnedExact(img, z, h, docs, a + Ascii(" ") + b, cs, d);
    ReturnedExact(img, z, h, docs, a + Ascii(" OR ") + b, cs, d);
    ReturnedExact(img, z, h, docs, Ascii("NOT ") + a, cs, d);
  }

  // ---------------------------------------------------------------- single words

  /** Texts without operators, which are searched for as they are. */
  predicate SingleWord(q: seq<byte>) { Parse(q).None? || Parse(q).value.Term? }

  /** Blanks and parentheses exchanged for other blanks, the rest kept. */
  function Swap(c: byte): byte { if InWord(c) then c else if c == 9 then 32 else 9 }

  function Swapped(s: seq<byte>): (r: seq<byte>)
    ensures |r| == |s| && forall i :: 0 <= i < |s| ==> r[i] == Swap(s[i])
  {
    seq(|s|, i requires 0 <= i < |s| => Swap(s[i]))
  }

  lemma {:induction false} SwapFold(s: seq<byte>)
    ensures Fold(Swapped(s)) == Swapped(Fold(s))
  {
  }

  /** Exchanging blanks moves no word. */
  lemma {:induction false} SwapOccurs(hay: seq<byte>, word: seq<byte>, i: nat)
    requires forall c :: c in word ==> InWord(c)
    ensures Occurs(Swapped(hay), word, i) <==> Occurs(hay, word, i)
  {
    if i + |word| <= |hay| {
      var here, there := hay[i..i + |word|], Swapped(hay)[i..i + |word|];
      forall k | 0 <= k < |word| ensures here[k] == word[k] <==> there[k] == word[k] {
        assert word[k] in word && there[k] == Swap(here[k]);
      }
      assert here == word <==> forall k :: 0 <= k < |word| ==> here[k] == word[k];
      assert there == word <==> forall k :: 0 <= k < |word| ==> there[k] == word[k];
    }
  }

  lemma {:induction false} SwapContains(hay: seq<byte>, word: seq<byte>)
    requires forall c :: c in word ==> InWord(c)
    ensures Contains(Swapped(hay), word) <==> Contains(hay, word)
  {
    forall i: nat ensures Occurs(Swapped(hay), word, i) <==> Occurs(hay, word, i) { SwapOccurs(hay, word, i); }
  }

  lemma {:induction false} SwapMatches(path: seq<byte>, w: seq<byte>, cs: bool)
    requires LegalWord(w)
    ensures Matches(Swapped(path), w, cs) <==> Matches(path, w, cs)
  {
    if cs {
      SwapContains(path, w);
    } else {
      SwapFold(path);
      forall c | c in Fold(w) ensures InWord(c) {
        var i :| 0 <= i < |w| && Fold(w)[i] == c;
        assert w[i] in w;
      }
      SwapContains(Fold(path), Fold(w));
    }
  }

  lemma {:induction false} SwapSatisfies(path: seq<byte>, n: Ast, cs: bool)
    requires AllPrims(n, LegalWord)
    ensures Satisfies(Swapped(path), n, cs) <==> Satisfies(path, n, cs)
  {
    match n
    case Term(w) => SwapMatches(path, w, cs);
    case Not(i) => SwapSatisfies(path, i, cs);
    case And(a, b) => SwapSatisfies(path, a, cs); SwapSatisfies(path, b, cs);
    case Or(a, b) => SwapSatisfies(path, a, cs); SwapSatisfies(path, b, cs);
  }

  lemma {:induction false} SameLengthContains(hay: seq<byte>, needle: seq<byte>)
    requires |hay| == |needle|
    ensures Contains(hay, needle) <==> hay == needle
  {
    assert hay[0..|needle|] == hay;
    if hay == needle { assert Occurs(hay, needle, 0); }
    if Contains(hay, needle) { var i :| 0 <= i <= |hay| && Occurs(hay, needle, i); }
  }

  lemma {:induction false} MatchesItself(q: seq<byte>, cs: bool)
    ensures Matches(q, q, cs)
  {
    SameLengthContains(q, q);
    SameLengthContains(Fold(q), Fold(q));
  }

  /** A text with a blank or a parenthesis does not occur in itself exchanged. */
  lemma {:induction false} SwappedDiffers(q: seq<byte>, cs: bool, i: nat)
    requires i < |q| && !InWord(q[i])
    ensures !Matches(Swapped(q), q, cs)
  {
    SameLengthContains(Swapped(q), q);
    SameLengthContains(Fold(Swapped(q)), Fold(q));
    assert Swapped(q)[i] != q[i] && Fold(Swapped(q))[i] != Fold(q)[i];
  }

  /** Reading a query as a formula, as the database does, and searching for it as it
      is, as the overlay does, agree on every path if and only if it is a single word. */
  lemma {:induction false} SingleWordIff(q: seq<byte>, cs: bool)
    requires q != []
    ensures SingleWord(q) <==> forall path :: Selects(path, q, cs) <==> Matches(path, q, cs)
  {
    if !SingleWord(q) {
      var n := Parse(q).value;
      MatchesItself(q, cs);
      if Satisfies(q, n, cs) {
        ParsedLegal(q, n);
        if forall c :: c in q ==> InWord(c) { UnbrokenIsWord(q); }
        var c :| c in q && !InWord(c);
        var i :| 0 <= i < |q| && q[i] == c;
        SwappedDiffers(q, cs, i);
        SwapSatisfies(q, n, cs);
        assert Selects(Swapped(q), q, cs) && !Matches(Swapped(q), q, cs);
      } else {
        assert !Selects(q, q, cs) && Matches(q, q, cs);
      }
    }
  }
}
