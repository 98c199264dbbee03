/** The in-memory inverted index that both builders keep while documents arrive. */
module TrigramIndex {
  import opened Prelude
  import opened Bytes
  import opened Text

  type Index = map<nat, seq<nat>>

  /** The ascending ids of the texts that have trigram `t`. */
  function PostingOf(texts: seq<seq<byte>>, t: nat): seq<nat> {
    if texts == [] then []
    else
      var n := |texts| - 1;
      PostingOf(texts[..n], t) + if HasTrigram(texts[n], t) then [n] else []
  }

  lemma {:induction false} PostingExact(texts: seq<seq<byte>>, t: nat)
    ensures Ascending(PostingOf(texts, t))
    ensures forall d: nat :: d in PostingOf(texts, t) <==> d < |texts| && HasTrigram(texts[d], t)
  {
    if texts != [] {
      var rest := PostingOf(texts[..|texts| - 1], t);
      PostingExact(texts[..|texts| - 1], t);
      forall i | 0 <= i < |rest| ensures rest[i] < |texts| - 1 { assert rest[i] in rest; }
    }
  }

  /** The index entry for `t` is `post`; there is none for an empty list. */
  ghost predicate Entry(m: Index, t: nat, post: seq<nat>) {
    (t in m <==> post != []) && (t in m ==> m[t] == post)
  }

  /** The index lists, for each trigram that occurs, exactly the texts having it. */
  ghost predicate Indexes(m: Index, texts: seq<seq<byte>>) {
    forall t: nat :: Entry(m, t, PostingOf(texts, t))
  }

  /** The posting of `t` after document `|texts|` was posted under `done`. */
  function PostedUnder(texts: seq<seq<byte>>, done: seq<nat>, t: nat): seq<nat> {
    PostingOf(texts, t) + if t in done then [|texts|] else []
  }

  ghost predicate Posted(m: Index, texts: seq<seq<byte>>, done: seq<nat>) {
    forall t: nat :: Entry(m, t, PostedUnder(texts, done, t))
  }

  lemma {:induction false} PostOne(m: Index, texts: seq<seq<byte>>, done: seq<nat>, t: nat)
    requires Posted(m, texts, done) && t !in done
    ensures var v := if t in m then m[t] else [];
            && (v != [] ==> v[|v| - 1] != |texts|)
            && Posted(m[t := v + [|texts|]], texts, done + [t])
  {
    assert Entry(m, t, PostedUnder(texts, done, t));
    var v := if t in m then m[t] else [];
    assert v == PostingOf(texts, t);
    LastEarlier(texts, t);
    var m' := m[t := v + [|texts|]];
    forall u: nat ensures Entry(m', u, PostedUnder(texts, done + [t], u)) {
      assert Entry(m, u, PostedUnder(texts, done, u));
      assert u in done + [t] <==> u in done || u == t;
    }
  }

  lemma {:induction false} LastEarlier(texts: seq<seq<byte>>, t: nat)
    ensures var v := PostingOf(texts, t); v != [] ==> v[|v| - 1] < |texts|
  {
    PostingExact(texts, t);
    var v := PostingOf(texts, t);
    if v != [] { assert v[|v| - 1] in v; }
  }

  lemma {:induction false} PostedAll(m: Index, texts: seq<seq<byte>>, folded: seq<byte>, tris: seq<nat>)
    requires Posted(m, texts, tris) && forall t :: t in tris <==> HasTrigram(folded, t)
    ensures Indexes(m, texts + [folded])
  {
    assert (texts + [folded])[..|texts|] == texts;
    forall t: nat ensures Entry(m, t, PostingOf(texts + [folded], t)) {
      assert Entry(m, t, PostedUnder(texts, tris, t));
    }
  }

  lemma {:induction false} NonePosted(m: Index, texts: seq<seq<byte>>)
    requires Indexes(m, texts)
    ensures Posted(m, texts, [])
  {
    forall t: nat ensures Entry(m, t, PostedUnder(texts, [], t)) {
      assert Entry(m, t, PostingOf(texts, t));
      assert PostingOf(texts, t) + [] == PostingOf(texts, t);
    }
  }

  /** Posts document `d` under each of its trigrams. */
  method AddText(m0: Index, ghost texts: seq<seq<byte>>, d: nat, folded: seq<byte>) returns (m: Index)
    requires d == |texts| && Indexes(m0, texts)
    ensures Indexes(m, texts + [folded])
  {
    m := m0;
    var tris := ExtractTrigrams(folded);
    TrigramsExact(folded);
    NonePosted(m, texts);
    for i := 0 to |tris|
      invariant Posted(m, texts, tris[..i])
    {
      var t := tris[i];
      PostOne(m, texts, tris[..i], t);
      var v := if t in m then m[t] else [];
      if v == [] || v[|v| - 1] != d {
        v := v + [d];
      }
      m := m[t := v];
      assert tris[..i + 1] == tris[..i] + [t];
    }
    assert tris[..|tris|] == tris;
    PostedAll(m, texts, folded, tris);
  }
}
