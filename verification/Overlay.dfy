/** The hot overlay: per-file changes absorbed since the last compaction, and the
    queries over them. */
module Overlay {
  import opened Prelude
  import opened Bytes
  import opened Text
  import opened Records
  import Candidates

  type Path = seq<byte>

  datatype WalRecord =
    | Upsert(path: Path, meta: LiteMeta, content: Option<seq<byte>>)
    | Delete(path: Path)

  // ---------------------------------------------------------------- meaning

  /** What the overlay says about a path that changed. */
  datatype Entry = Live(meta: LiteMeta, content: Option<seq<byte>>) | Deleted

  type View = map<Path, Entry>

  function EntryOf(r: WalRecord): Entry {
    match r case Upsert(_, m, c) => Live(m, c) case Delete(_) => Deleted
  }

  /** The last writer wins. */
  function Step(v: View, r: WalRecord): View { v[r.path := EntryOf(r)] }

  function Replay(v: View, rs: seq<WalRecord>): View {
    if rs == [] then v else Step(Replay(v, rs[..|rs| - 1]), rs[|rs| - 1])
  }

  predicate Touches(rs: seq<WalRecord>, p: Path) { exists i :: 0 <= i < |rs| && rs[i].path == p }

  /** The entry that the last record about `p` leaves. */
  function Last(rs: seq<WalRecord>, p: Path): Entry
    requires Touches(rs, p)
  {
    var n := |rs| - 1;
    if rs[n].path == p then EntryOf(rs[n]) else Last(rs[..n], p)
  }

  lemma {:induction false} ReplayExact(v: View, rs: seq<WalRecord>, p: Path)
    ensures p in Replay(v, rs) <==> Touches(rs, p) || p in v
    ensures p in Replay(v, rs) ==> Replay(v, rs)[p] == if Touches(rs, p) then Last(rs, p) else v[p]
  {
    if rs != [] {
      var n := |rs| - 1;
      ReplayExact(v, rs[..n], p);
      if Touches(rs[..n], p) { var i :| 0 <= i < n && rs[..n][i].path == p; assert rs[i].path == p; }
      if Touches(rs, p) && rs[n].path != p { var i :| 0 <= i < |rs| && rs[i].path == p; assert rs[..n][i].path == p; }
    }
  }

  /** Replaying the whole log once more leaves the overlay as it is. */
  lemma {:induction false} ReplayAgain(v: View, rs: seq<WalRecord>)
    ensures Replay(Replay(v, rs), rs) == Replay(v, rs)
  {
    var once, twice := Replay(v, rs), Replay(Replay(v, rs), rs);
    forall p ensures (p in once <==> p in twice) && (p in once ==> once[p] == twice[p]) {
      ReplayExact(v, rs, p);
      ReplayExact(once, rs, p);
    }
  }

  lemma {:induction false} ReplayAppend(v: View, rs: seq<WalRecord>, more: seq<WalRecord>)
    ensures Replay(v, rs + more) == Replay(Replay(v, rs), more)
    decreases |more|
  {
    if more == [] {
      assert rs + more == rs;
    } else {
      var n := |more| - 1;
      assert (rs + more)[..|rs + more| - 1] == rs + more[..n];
      ReplayAppend(v, rs, more[..n]);
    }
  }

  // ---------------------------------------------------------------- postings

  type Index = map<nat, seq<nat>>

  /** The posting of `t` lists, each once, the documents whose list has `t`; there is
      no empty posting. */
  ghost predicate PostingOf(m: Index, t: nat, lists: seq<seq<nat>>) {
    if t in m then
      && m[t] != [] && Candidates.Distinct(m[t])
      && forall d: nat :: d in m[t] <==> d < |lists| && t in lists[d]
    else forall d :: 0 <= d < |lists| ==> t !in lists[d]
  }

  ghost predicate Indexed(m: Index, lists: seq<seq<nat>>) {
    forall t: nat :: PostingOf(m, t, lists)
  }

  /** The elements other than `d` (`retain`). */
  function Without(v: seq<nat>, d: nat): seq<nat> {
    if v == [] then [] else (if v[0] != d then [v[0]] else []) + Without(v[1..], d)
  }

  lemma {:induction false} WithoutExact(v: seq<nat>, d: nat)
    ensures forall x :: x in Without(v, d) <==> x in v && x != d
    ensures Candidates.Distinct(v) ==> Candidates.Distinct(Without(v, d))
  {
    if v != [] {
      WithoutExact(v[1..], d);
      var rest := Without(v[1..], d);
      if Candidates.Distinct(v) {
        forall i | 0 <= i < |rest| ensures rest[i] != v[0] {
          assert rest[i] in rest;
          var j :| 0 <= j < |v| - 1 && v[j + 1] == rest[i];
        }
      }
    }
  }

  function Unpost(m: Index, t: nat, d: nat): Index {
    if t !in m then m
    else if Without(m[t], d) == [] then m - {t}
    else m[t := Without(m[t], d)]
  }

  function Post(m: Index, t: nat, d: nat): Index {
    var v := if t in m then m[t] else [];
    m[t := if v != [] && v[|v| - 1] == d then v else v + [d]]
  }

  lemma {:induction false} UnpostOne(m: Index, lists: seq<seq<nat>>, d: nat, t: nat, rest: seq<nat>)
    requires d < |lists| && PostingOf(m, t, lists[d := [t] + rest]) && t !in rest
    ensures PostingOf(Unpost(m, t, d), t, lists[d := rest])
  {
    var was, now := lists[d := [t] + rest], lists[d := rest];
    assert t in was[d];
    WithoutExact(m[t], d);
    var v := Without(m[t], d);
    forall x: nat ensures x in v <==> x < |now| && t in now[x] {
      if x < |now| && x != d { assert now[x] == was[x]; }
    }
    if v == [] {
      forall x | 0 <= x < |now| ensures t !in now[x] { assert x !in v; }
    }
  }

  lemma {:induction false} OtherTrigram(m: Index, n: Index, lists: seq<seq<nat>>, d: nat, a: seq<nat>, b: seq<nat>,
      s: nat)
    requires d < |lists| && PostingOf(m, s, lists[d := a])
    requires s in n <==> s in m
    requires s in m ==> n[s] == m[s]
    requires s in a <==> s in b
    ensures PostingOf(n, s, lists[d := b])
  {
    var was, now := lists[d := a], lists[d := b];
    forall x | 0 <= x < |lists| ensures s in was[x] <==> s in now[x] { }
  }

  lemma {:induction false} UnpostStep(m: Index, lists: seq<seq<nat>>, d: nat, t: nat, rest: seq<nat>)
    requires d < |lists| && Indexed(m, lists[d := [t] + rest]) && t !in rest
    ensures Indexed(Unpost(m, t, d), lists[d := rest])
  {
    var n, now := Unpost(m, t, d), lists[d := rest];
    forall s: nat ensures PostingOf(n, s, now) {
      assert PostingOf(m, s, lists[d := [t] + rest]);
      if s == t { UnpostOne(m, lists, d, t, rest); }
      else { OtherTrigram(m, n, lists, d, [t] + rest, rest, s); }
    }
  }

  lemma {:induction false} PostOne(m: Index, lists: seq<seq<nat>>, d: nat, t: nat, done: seq<nat>)
    requires d < |lists| && PostingOf(m, t, lists[d := done]) && t !in done
    ensures PostingOf(Post(m, t, d), t, lists[d := done + [t]])
  {
    var was, now := lists[d := done], lists[d := done + [t]];
    var v := if t in m then m[t] else [];
    assert d !in v;
    assert v != [] ==> v[|v| - 1] in v;
    forall x: nat ensures x in v + [d] <==> x < |now| && t in now[x] {
      if x < |now| && x != d { assert now[x] == was[x]; }
    }
  }

  lemma {:induction false} PostStep(m: Index, lists: seq<seq<nat>>, d: nat, t: nat, done: seq<nat>)
    requires d < |lists| && Indexed(m, lists[d := done]) && t !in done
    ensures Indexed(Post(m, t, d), lists[d := done + [t]])
  {
    var n, now := Post(m, t, d), lists[d := done + [t]];
    forall s: nat ensures PostingOf(n, s, now) {
      assert PostingOf(m, s, lists[d := done]);
      if s == t { PostOne(m, lists, d, t, done); }
      else { OtherTrigram(m, n, lists, d, done, done + [t], s); }
    }
  }

  lemma {:induction false} FreshDoc(m: Index, lists: seq<seq<nat>>)
    requires Indexed(m, lists)
    ensures Indexed(m, lists + [[]])
  {
    forall t: nat ensures PostingOf(m, t, lists + [[]]) {
      assert PostingOf(m, t, lists);
    }
  }

  // ---------------------------------------------------------------- the object

  function TrigramsOf(content: Option<seq<byte>>): seq<nat> {
    if content.Some? then Trigrams(Fold(content.value)) else []
  }

  lemma {:induction false} TrigramsAscend(content: Option<seq<byte>>)
    ensures Ascending(TrigramsOf(content))
  {
    if content.Some? { TrigramsExact(Fold(content.value)); }
  }

  /** `byPath` and `paths` are inverse to each other. */
  ghost predicate Inverse(byPath: map<Path, nat>, paths: seq<Path>) {
    && (forall d :: 0 <= d < |paths| ==> paths[d] in byPath && byPath[paths[d]] == d)
    && (forall p :: p in byPath ==> byPath[p] < |paths| && paths[byPath[p]] == p)
  }

  function ViewOf(byPath: map<Path, nat>, metas: seq<LiteMeta>, contents: seq<Option<seq<byte>>>,
      tombstones: set<Path>): View
    requires forall p :: p in byPath ==> byPath[p] < |metas| && byPath[p] < |contents|
  {
    map p | p in byPath.Keys + tombstones ::
      if p in tombstones then Deleted else Live(metas[byPath[p]], contents[byPath[p]])
  }

  /** The slots agree with each other, and a tombstoned slot has no content. */
  ghost predicate SlotsOf(byPath: map<Path, nat>, paths: seq<Path>, metas: seq<LiteMeta>,
      contents: seq<Option<seq<byte>>>, docTrigrams: seq<seq<nat>>, tombstones: set<Path>) {
    && |paths| == |metas| == |contents| == |docTrigrams| && Inverse(byPath, paths)
    && (forall d :: 0 <= d < |contents| ==> docTrigrams[d] == TrigramsOf(contents[d]))
    && (forall p :: p in tombstones && p in byPath ==> contents[byPath[p]] == None)
  }

  lemma {:induction false} Replaced(byPath: map<Path, nat>, paths: seq<Path>, metas: seq<LiteMeta>,
      contents: seq<Option<seq<byte>>>, docTrigrams: seq<seq<nat>>, tombstones: set<Path>, path: Path, meta: LiteMeta,
      content: Option<seq<byte>>)
    requires SlotsOf(byPath, paths, metas, contents, docTrigrams, tombstones) && path in byPath
    ensures var d, left, tris := byPath[path], tombstones - {path}, TrigramsOf(content);
            && SlotsOf(byPath, paths, metas[d := meta], contents[d := content], docTrigrams[d := tris], left)
            && ViewOf(byPath, metas[d := meta], contents[d := content], left)
                 == Step(ViewOf(byPath, metas, contents, tombstones), Upsert(path, meta, content))
  {
    forall p | p in byPath && p != path ensures byPath[p] != byPath[path] { assert paths[byPath[p]] == p; }
  }

  lemma {:induction false} Appended(byPath: map<Path, nat>, paths: seq<Path>, metas: seq<LiteMeta>,
      contents: seq<Option<seq<byte>>>, docTrigrams: seq<seq<nat>>, tombstones: set<Path>, path: Path, meta: LiteMeta,
      content: Option<seq<byte>>)
    requires SlotsOf(byPath, paths, metas, contents, docTrigrams, tombstones) && path !in byPath
    ensures var index, left, tris := byPath[path := |paths|], tombstones - {path}, TrigramsOf(content);
            && SlotsOf(index, paths + [path], metas + [meta], contents + [content], docTrigrams + [tris], left)
            && ViewOf(index, metas + [meta], contents + [content], left)
                 == Step(ViewOf(byPath, metas, contents, tombstones), Upsert(path, meta, content))
  {
  }

  lemma {:induction false} Removed(byPath: map<Path, nat>, paths: seq<Path>, metas: seq<LiteMeta>,
      contents: seq<Option<seq<byte>>>, docTrigrams: seq<seq<nat>>, tombstones: set<Path>, path: Path)
    requires SlotsOf(byPath, paths, metas, contents, docTrigrams, tombstones) && path in byPath
    ensures var d, more := byPath[path], tombstones + {path};
            && SlotsOf(byPath, paths, metas, contents[d := None], docTrigrams[d := []], more)
            && ViewOf(byPath, metas, contents[d := None], more)
                 == Step(ViewOf(byPath, metas, contents, tombstones), Delete(path))
  {
    forall p | p in byPath && p != path ensures byPath[p] != byPath[path] { assert paths[byPath[p]] == p; }
  }

  lemma {:induction false} Buried(byPath: map<Path, nat>, paths: seq<Path>, metas: seq<LiteMeta>,
      contents: seq<Option<seq<byte>>>, docTrigrams: seq<seq<nat>>, tombstones: set<Path>, path: Path)
    requires SlotsOf(byPath, paths, metas, contents, docTrigrams, tombstones) && path !in byPath
    ensures var more := tombstones + {path};
            && SlotsOf(byPath, paths, metas, contents, docTrigrams, more)
            && ViewOf(byPath, metas, contents, more) == Step(ViewOf(byPath, metas, contents, tombstones), Delete(path))
  {
  }

  // ---------------------------------------------------------------- queries

  function PostingIn(m: Index, t: nat): Option<seq<nat>> { if t in m then Some(m[t]) else None }

  predicate VerifyIn(contents: seq<Option<seq<byte>>>, d: nat, needle: seq<byte>, cs: bool) {
    && d < |contents| && contents[d].Some?
    && (needle == [] || Contains(if cs then contents[d].value else Fold(contents[d].value), needle))
  }

  function ReaderOf(m: Index, contents: seq<Option<seq<byte>>>): Candidates.Source {
    Candidates.Source(|contents|, (t: nat) => Ok(PostingIn(m, t)),
                      (d: nat, needle: seq<byte>, cs: bool) => Ok(VerifyIn(contents, d, needle, cs)))
  }

  predicate Holds(content: Option<seq<byte>>, needle: seq<byte>, cs: bool) {
    content.Some? && Contains(if cs then content.value else Fold(content.value), needle)
  }

  predicate NameHolds(path: Path, needle: seq<byte>, cs: bool, basenameOnly: bool) {
    var hay := if basenameOnly then Basename(path) else path;
    if cs then Contains(hay, needle) else Contains(Fold(hay), Fold(needle))
  }

  /** A query by last component looks at what stands behind the last slash alone. */
  lemma {:induction false} BasenameHit(dir: Path, name: Path, needle: seq<byte>, cs: bool)
    requires forall c :: c in name ==> c != '/' as int
    ensures NameHolds(dir + Ascii("/") + name, needle, cs, true) <==>
      if cs then Contains(name, needle) else Contains(Fold(name), Fold(needle))
  {
    assert Ascii("/") == [SLASH];
    BasenameIs(dir + [SLASH], name);
  }

  /** The live paths whose content matches, by the meaning of the overlay. */
  function ContentMatches(v: View, needle: seq<byte>, cs: bool): set<Path> {
    set p | p in v && v[p].Live? && Holds(v[p].content, needle, cs)
  }

  function NameMatches(v: View, needle: seq<byte>, cs: bool, basenameOnly: bool): set<Path> {
    set p | p in v && v[p].Live? && NameHolds(p, needle, cs, basenameOnly)
  }

  /** `hits` are matches, no path twice, each with its metadata; and they are all of
      them, or as many as the limit allows. */
  ghost predicate AnswersWith(hits: seq<(Path, LiteMeta)>, limit: Option<nat>, v: View, matches: set<Path>) {
    && (forall i, j :: 0 <= i < j < |hits| ==> hits[i].0 != hits[j].0)
    && (forall i :: 0 <= i < |hits| ==>
          hits[i].0 in matches && hits[i].0 in v && v[hits[i].0].Live? && hits[i].1 == v[hits[i].0].meta)
    && |hits| == if limit.Some? && limit.value < |matches| then limit.value else |matches|
  }

  ghost predicate Within(ds: seq<nat>, n: nat) { forall i :: 0 <= i < |ds| ==> ds[i] < n }

  ghost function Rows(paths: seq<Path>, metas: seq<LiteMeta>, ds: seq<nat>): (rows: seq<(Path, LiteMeta)>)
    requires |paths| == |metas| && Within(ds, |paths|)
    ensures |rows| == |ds|
  {
    seq(|ds|, i requires 0 <= i < |ds| => (paths[ds[i]], metas[ds[i]]))
  }

  ghost function PathsOf(paths: seq<Path>, ds: seq<nat>): set<Path> {
    set d | d in ds && d < |paths| :: paths[d]
  }

  /** Different documents have different paths, so there are as many. */
  lemma {:induction false} CountPaths(paths: seq<Path>, ds: seq<nat>)
    requires forall i, j :: 0 <= i < j < |paths| ==> paths[i] != paths[j]
    requires Candidates.Distinct(ds) && Within(ds, |paths|)
    ensures |PathsOf(paths, ds)| == |ds|
  {
    if ds != [] {
      var rest := ds[1..];
      assert ds == [ds[0]] + rest && ds[0] !in rest;
      CountPaths(paths, rest);
      assert PathsOf(paths, ds) == PathsOf(paths, rest) + {paths[ds[0]]};
      assert paths[ds[0]] !in PathsOf(paths, rest);
    }
  }

  /** `all` lists, each once, the documents of the matching paths. */
  ghost predicate Found(all: seq<nat>, paths: seq<Path>, metas: seq<LiteMeta>, v: View, matches: set<Path>) {
    && |paths| == |metas| && Candidates.Distinct(all)
    && (forall i, j :: 0 <= i < j < |paths| ==> paths[i] != paths[j])
    && Within(all, |paths|) && matches == PathsOf(paths, all)
    && (forall d :: d in all && d < |paths| ==> paths[d] in v && v[paths[d]].Live? && v[paths[d]].meta == metas[d])
  }

  lemma {:induction false} RowsAnswer(paths: seq<Path>, metas: seq<LiteMeta>, all: seq<nat>, limit: Option<nat>,
      v: View, matches: set<Path>)
    requires Found(all, paths, metas, v, matches)
    ensures AnswersWith(Rows(paths, metas, Cap(all, limit)), limit, v, matches)
  {
    CountPaths(paths, all);
    var some := Cap(all, limit);
    forall i | 0 <= i < |some| ensures some[i] == all[i] && all[i] in all && paths[all[i]] in matches { }
  }

  /** Without a limit, every match is among the hits. */
  lemma {:induction false} AllAnswered(hits: seq<(Path, LiteMeta)>, v: View, matches: set<Path>)
    requires AnswersWith(hits, None, v, matches)
    ensures forall p :: p in matches ==> p in v && v[p].Live? && (p, v[p].meta) in hits
  {
    var paths := seq(|hits|, i requires 0 <= i < |hits| => hits[i].0);
    CountPaths(paths, Candidates.UpTo(|hits|));
    var found := PathsOf(paths, Candidates.UpTo(|hits|));
    SubsetSize(found, matches);
    forall p | p in matches ensures p in v && v[p].Live? && (p, v[p].meta) in hits {
      var d :| d in Candidates.UpTo(|hits|) && paths[d] == p;
      assert hits[d] == (p, v[p].meta);
    }
  }

  /** So two unlimited answers from overlays of one meaning agree, as sets. */
  lemma {:induction false} SameAnswers(a: seq<(Path, LiteMeta)>, b: seq<(Path, LiteMeta)>, v: View, matches: set<Path>)
    requires AnswersWith(a, None, v, matches) && AnswersWith(b, None, v, matches)
    ensures forall h :: h in a <==> h in b
  {
    AllAnswered(a, v, matches);
    AllAnswered(b, v, matches);
    forall h ensures h in a <==> h in b {
      if h in a { var i :| 0 <= i < |a| && a[i] == h; assert h == (h.0, h.1); }
      if h in b { var i :| 0 <= i < |b| && b[i] == h; assert h == (h.0, h.1); }
    }
  }

  function FoldedContents(contents: seq<Option<seq<byte>>>): (r: seq<seq<byte>>)
    ensures |r| == |contents|
  {
    seq(|contents|, i requires 0 <= i < |contents| => if contents[i].Some? then Fold(contents[i].value) else [])
  }

  function Holding(contents: seq<Option<seq<byte>>>, needle: seq<byte>, cs: bool): nat -> bool {
    (d: nat) => d < |contents| && Holds(contents[d], needle, cs)
  }

  lemma {:induction false} ReaderLists(m: Index, contents: seq<Option<seq<byte>>>, docTrigrams: seq<seq<nat>>)
    requires |contents| == |docTrigrams| && Indexed(m, docTrigrams)
    requires forall d :: 0 <= d < |contents| ==> docTrigrams[d] == TrigramsOf(contents[d])
    ensures Candidates.Lists(ReaderOf(m, contents), FoldedContents(contents))
  {
    var texts := FoldedContents(contents);
    forall t: nat ensures Candidates.PostingFor(Ok(PostingIn(m, t)), texts, t) {
      assert PostingOf(m, t, docTrigrams);
      forall d | 0 <= d < |texts| ensures HasTrigram(texts[d], t) <==> t in docTrigrams[d] {
        if contents[d].Some? { TrigramsExact(texts[d]); }
      }
    }
  }

  lemma {:induction false} ReaderFaithful(m: Index, contents: seq<Option<seq<byte>>>, docTrigrams: seq<seq<nat>>,
      original: seq<byte>, cs: bool)
    requires |contents| == |docTrigrams| && Indexed(m, docTrigrams)
    requires forall d :: 0 <= d < |contents| ==> docTrigrams[d] == TrigramsOf(contents[d])
    ensures var needle, texts := if cs then original else Fold(original), FoldedContents(contents);
            var hit := Holding(contents, needle, cs);
            Candidates.Faithful(ReaderOf(m, contents), texts, hit, Fold(original), needle, cs)
  {
    ReaderLists(m, contents, docTrigrams);
    var needle, texts := if cs then original else Fold(original), FoldedContents(contents);
    forall d: nat | d < |texts|
      ensures VerifyIn(contents, d, needle, cs) == Holding(contents, needle, cs)(d)
      ensures Holding(contents, needle, cs)(d) ==> Contains(texts[d], Fold(original))
    {
      if contents[d].Some? {
        var c := contents[d].value;
        if needle == [] { assert Occurs(if cs then c else Fold(c), needle, 0); }
        if cs && Contains(c, needle) { FoldContains(c, original); }
      }
    }
  }

  /** The documents that a content query finds, before the cap: all that match, each
      once, although postings lose their order when a path is upserted again. */
  lemma {:induction false} FoundDocs(m: Index, contents: seq<Option<seq<byte>>>, docTrigrams: seq<seq<nat>>,
      original: seq<byte>, cs: bool, limit: Option<nat>)
    returns (found: seq<nat>)
    requires |contents| == |docTrigrams| && Indexed(m, docTrigrams)
    requires forall d :: 0 <= d < |contents| ==> docTrigrams[d] == TrigramsOf(contents[d])
    ensures Candidates.Candidates(ReaderOf(m, contents), Fold(original), original, cs, limit) == Ok(Cap(found, limit))
    ensures Candidates.Distinct(found) && Within(found, |contents|)
    ensures var needle := if cs then original else Fold(original);
            forall d: nat :: d in found <==> d < |contents| && Holds(contents[d], needle, cs)
  {
    var needle := if cs then original else Fold(original);
    var hit := Holding(contents, needle, cs);
    ReaderFaithful(m, contents, docTrigrams, original, cs);
    var src, texts := ReaderOf(m, contents), FoldedContents(contents);
    var ds := Candidates.CandidatesComplete(src, texts, hit, Fold(original), original, cs, limit);
    Candidates.FilterExact(ds, hit);
    found := Candidates.Filter(ds, hit);
    forall i | 0 <= i < |found| ensures found[i] < |contents| { assert found[i] in found; }
  }

  lemma {:induction false} DocsFound(byPath: map<Path, nat>, paths: seq<Path>, metas: seq<LiteMeta>,
      contents: seq<Option<seq<byte>>>, docTrigrams: seq<seq<nat>>, tombstones: set<Path>, found: seq<nat>,
      matches: set<Path>)
    requires SlotsOf(byPath, paths, metas, contents, docTrigrams, tombstones)
    requires Candidates.Distinct(found) && Within(found, |paths|)
    requires forall p :: p in matches ==> p in byPath && p !in tombstones
    requires forall d: nat :: d < |paths| ==> (d in found <==> paths[d] in matches)
    ensures Found(found, paths, metas, ViewOf(byPath, metas, contents, tombstones), matches)
  {
    var docs := PathsOf(paths, found);
    forall p ensures p in matches <==> p in docs {
      if p in matches { assert byPath[p] in found; }
      if p in docs { var d :| d in found && d < |paths| && paths[d] == p; }
    }
  }

  lemma {:induction false} ContentFound(byPath: map<Path, nat>, paths: seq<Path>, metas: seq<LiteMeta>,
      contents: seq<Option<seq<byte>>>, docTrigrams: seq<seq<nat>>, tombstones: set<Path>, needle: seq<byte>,
      cs: bool, found: seq<nat>)
    requires SlotsOf(byPath, paths, metas, contents, docTrigrams, tombstones)
    requires Candidates.Distinct(found) && Within(found, |paths|)
    requires forall d: nat :: d in found <==> d < |contents| && Holds(contents[d], needle, cs)
    ensures var v := ViewOf(byPath, metas, contents, tombstones);
            Found(found, paths, metas, v, ContentMatches(v, needle, cs))
  {
    var matches := ContentMatches(ViewOf(byPath, metas, contents, tombstones), needle, cs);
    forall d: nat | d < |paths| ensures d in found <==> paths[d] in matches { assert byPath[paths[d]] == d; }
    DocsFound(byPath, paths, metas, contents, docTrigrams, tombstones, found, matches);
  }

  function NamedDoc(paths: seq<Path>, tombstones: set<Path>, needle: seq<byte>, cs: bool,
      basenameOnly: bool): nat -> bool {
    (d: nat) => d < |paths| && paths[d] !in tombstones && NameHolds(paths[d], needle, cs, basenameOnly)
  }

  lemma {:induction false} NameFound(byPath: map<Path, nat>, paths: seq<Path>, metas: seq<LiteMeta>,
      contents: seq<Option<seq<byte>>>, docTrigrams: seq<seq<nat>>, tombstones: set<Path>, needle: seq<byte>,
      cs: bool, basenameOnly: bool, found: seq<nat>)
    requires SlotsOf(byPath, paths, metas, contents, docTrigrams, tombstones)
    requires found == Candidates.Filter(Candidates.UpTo(|paths|), NamedDoc(paths, tombstones, needle, cs, basenameOnly))
    ensures var v := ViewOf(byPath, metas, contents, tombstones);
            Found(found, paths, metas, v, NameMatches(v, needle, cs, basenameOnly))
  {
    var matches := NameMatches(ViewOf(byPath, metas, contents, tombstones), needle, cs, basenameOnly);
    Candidates.FilterExact(Candidates.UpTo(|paths|), NamedDoc(paths, tombstones, needle, cs, basenameOnly));
    forall i | 0 <= i < |found| ensures found[i] < |paths| { assert found[i] in found; }
    forall d: nat | d < |paths| ensures d in found <==> paths[d] in matches {
      assert byPath[paths[d]] == d && Candidates.UpTo(|paths|)[d] == d;
    }
    DocsFound(byPath, paths, metas, contents, docTrigrams, tombstones, found, matches);
  }

  /** How a scan up to `d` goes on, and that it is the beginning of the whole scan. */
  lemma {:induction false} SeenSoFar(d: nat, n: nat, hit: nat -> bool)
    requires d < n
    ensures var seen := Candidates.Filter(Candidates.UpTo(d), hit);
            && Candidates.Filter(Candidates.UpTo(d + 1), hit) == seen + (if hit(d) then [d] else [])
            && seen <= Candidates.Filter(Candidates.UpTo(d + 1), hit) <= Candidates.Filter(Candidates.UpTo(n), hit)
  {
    var next, all := Candidates.UpTo(d + 1), Candidates.UpTo(n);
    assert next == Candidates.UpTo(d) + [d];
    Candidates.FilterConcat(Candidates.UpTo(d), [d], hit);
    assert Candidates.Filter([d], hit) == if hit(d) then [d] + [] else [] + [];
    assert all == next + all[d + 1..];
    Candidates.FilterConcat(next, all[d + 1..], hit);
  }

  class Overlay {
    var byPath: map<Path, nat>
    var paths: seq<Path>
    var metas: seq<LiteMeta>
    var contents: seq<Option<seq<byte>>>
    var tryMap: Index
    var docTrigrams: seq<seq<nat>>
    var tombstones: set<Path>

    ghost predicate Slots()
      reads this
    {
      SlotsOf(byPath, paths, metas, contents, docTrigrams, tombstones)
    }

    ghost predicate Valid()
      reads this
    {
      Slots() && Indexed(tryMap, docTrigrams)
    }

    /** What the overlay means: the plain map that it stands for. */
    function View(): View
      reads this
      requires Slots()
    {
      ViewOf(byPath, metas, contents, tombstones)
    }

    constructor ()
      ensures Valid() && View() == map[]
    {
      byPath, paths, metas, contents, tryMap, docTrigrams, tombstones := map[], [], [], [], map[], [], {};
      new;
      assert forall t: nat :: PostingOf(map[], t, []);
    }

    /** A copy to apply a batch to, while queries keep the original. */
    method Clone() returns (o: Overlay)
      requires Valid()
      ensures fresh(o) && o.Valid() && o.View() == View()
    {
      o := new Overlay();
      o.byPath, o.paths, o.metas, o.contents := byPath, paths, metas, contents;
      o.tryMap, o.docTrigrams, o.tombstones := tryMap, docTrigrams, tombstones;
    }

    method ApplyRecord(rec: WalRecord)
      requires Valid()
      modifies this
      ensures Valid() && View() == Step(old(View()), rec)
    {
      match rec {
        case Upsert(path, meta, content) => ApplyUpsert(path, meta, content);
        case Delete(path) => ApplyDelete(path);
      }
    }

    method ApplyUpsert(path: Path, meta: LiteMeta, content: Option<seq<byte>>)
      requires Valid()
      modifies this
      ensures Valid() && View() == Step(old(View()), Upsert(path, meta, content))
    {
      var d := Place(path, meta, content);
      if content.Some? {
        var f := new byte[|content.value|](i requires 0 <= i < |content.value| => content.value[i]);
        assert f[..] == content.value;
        FoldInPlace(f);
        var tris := ExtractTrigrams(f[..]);
        TrigramsAscend(content);
        PostAll(d, tris);
        docTrigrams := docTrigrams[d := tris];
      } else {
        docTrigrams := docTrigrams[d := []];
      }
    }

    method ApplyDelete(path: Path)
      requires Valid()
      modifies this
      ensures Valid() && View() == Step(old(View()), Delete(path))
    {
      if path in byPath {
        Removed(byPath, paths, metas, contents, docTrigrams, tombstones, path);
        var d := byPath[path];
        TrigramsAscend(contents[d]);
        RemoveDocPostings(d);
        contents := contents[d := None];
        docTrigrams := docTrigrams[d := []];
      } else {
        Buried(byPath, paths, metas, contents, docTrigrams, tombstones, path);
      }
      tombstones := tombstones + {path};
    }

    /** The slot of an upserted path, with the postings of its old content dropped. */
    method Place(path: Path, meta: LiteMeta, content: Option<seq<byte>>) returns (d: nat)
      requires Valid()
      modifies this
      ensures d < |docTrigrams| && Indexed(tryMap, docTrigrams[d := []])
      ensures SlotsOf(byPath, paths, metas, contents, docTrigrams[d := TrigramsOf(content)], tombstones)
      ensures ViewOf(byPath, metas, contents, tombstones) == Step(old(View()), Upsert(path, meta, content))
    {
      tombstones := tombstones - {path};
      if path in byPath {
        Replaced(byPath, paths, metas, contents, docTrigrams, old(tombstones), path, meta, content);
        d := byPath[path];
        TrigramsAscend(contents[d]);
        RemoveDocPostings(d);
        metas := metas[d := meta];
        contents := contents[d := content];
      } else {
        Appended(byPath, paths, metas, contents, docTrigrams, old(tombstones), path, meta, content);
        FreshDoc(tryMap, docTrigrams);
        d := |paths|;
        paths := paths + [path];
        metas := metas + [meta];
        contents := contents + [content];
        docTrigrams := docTrigrams + [[]];
        byPath := byPath[path := d];
        assert docTrigrams[d := []] == docTrigrams;
        assert docTrigrams[d := TrigramsOf(content)] == old(docTrigrams) + [TrigramsOf(content)];
      }
    }

    method ApplyRecords(recs: seq<WalRecord>)
      requires Valid()
      modifies this
      ensures Valid() && View() == Replay(old(View()), recs)
    {
      for i := 0 to |recs|
        invariant Valid() && View() == Replay(old(View()), recs[..i])
      {
        assert recs[..i + 1][..i] == recs[..i];
        ApplyRecord(recs[i]);
      }
      assert recs[..|recs|] == recs;
    }

    method RemoveDocPostings(d: nat)
      requires d < |docTrigrams| && Indexed(tryMap, docTrigrams) && Ascending(docTrigrams[d])
      modifies this`tryMap
      ensures Indexed(tryMap, docTrigrams[d := []])
    {
      var tris := docTrigrams[d];
      assert docTrigrams[d := tris[0..]] == docTrigrams;
      for i := 0 to |tris|
        invariant Indexed(tryMap, docTrigrams[d := tris[i..]])
      {
        var t := tris[i];
        assert tris[i..] == [t] + tris[i + 1..];
        UnpostStep(tryMap, docTrigrams, d, t, tris[i + 1..]);
        if t in tryMap {
          var v := Without(tryMap[t], d);
          if v == [] { tryMap := tryMap - {t}; } else { tryMap := tryMap[t := v]; }
        }
      }
    }

    method PostAll(d: nat, tris: seq<nat>)
      requires d < |docTrigrams| && Indexed(tryMap, docTrigrams[d := []]) && Ascending(tris)
      modifies this`tryMap
      ensures Indexed(tryMap, docTrigrams[d := tris])
    {
      for i := 0 to |tris|
        invariant Indexed(tryMap, docTrigrams[d := tris[..i]])
      {
        var t := tris[i];
        assert tris[..i + 1] == tris[..i] + [t];
        PostStep(tryMap, docTrigrams, d, t, tris[..i]);
        var v := if t in tryMap then tryMap[t] else [];
        if v == [] || v[|v| - 1] != d { v := v + [d]; }
        tryMap := tryMap[t := v];
      }
      assert tris[..|tris|] == tris;
    }

    predicate ShadowsAnything()
      reads this
      requires Slots()
      ensures ShadowsAnything() <==> View() != map[]
    {
      assert paths != [] ==> paths[0] in View();
      assert forall p :: p in View() ==> p in byPath || p in tombstones;
      assert forall p :: p in tombstones ==> p in View();
      paths != [] || tombstones != {}
    }

    predicate Suppresses(path: Path)
      reads this
      requires Slots()
      ensures Suppresses(path) <==> path in View()
    {
      path in byPath || path in tombstones
    }

    /** The overlay as a source of candidates. */
    function Reader(): Candidates.Source
      reads this
    {
      ReaderOf(tryMap, contents)
    }

    /** The live paths whose content contains the query: each once, with its metadata;
        under a limit, as many of them as the limit allows. */
    method ContentQuery(folded: seq<byte>, original: seq<byte>, cs: bool, limit: Option<nat>)
      returns (hits: seq<(Path, LiteMeta)>)
      requires Valid() && folded == Fold(original)
      ensures AnswersWith(hits, limit, View(), ContentMatches(View(), if cs then original else folded, cs))
    {
      ghost var needle := if cs then original else folded;
      ghost var found := FoundDocs(tryMap, contents, docTrigrams, original, cs, limit);
      var docids := Candidates.ComputeCandidates(Reader(), folded, original, cs, limit);
      hits := Resolve(if docids.Ok? then docids.value else [], found);
      ContentFound(byPath, paths, metas, contents, docTrigrams, tombstones, needle, cs, found);
      RowsAnswer(paths, metas, found, limit, View(), ContentMatches(View(), needle, cs));
    }

    /** The rows of the documents `ds`, of which none is deleted. */
    method Resolve(ds: seq<nat>, ghost found: seq<nat>) returns (hits: seq<(Path, LiteMeta)>)
      requires Slots() && ds <= found && Within(found, |paths|)
      requires forall d :: d in found && d < |contents| ==> contents[d].Some?
      ensures hits == Rows(paths, metas, ds)
    {
      hits := [];
      for i := 0 to |ds|
        invariant hits == Rows(paths, metas, ds[..i])
      {
        var d := ds[i];
        assert d == found[i] && d in found && paths[d] in byPath && byPath[paths[d]] == d;
        if d < |paths| && paths[d] !in tombstones {
          hits := hits + [(paths[d], metas[d])];
        }
        assert ds[..i + 1] == ds[..i] + [d];
      }
      assert ds[..|ds|] == ds;
    }

    /** The live paths whose name, or last component, contains the needle. */
    method FilenameQuery(needle: seq<byte>, cs: bool, basenameOnly: bool, limit: Option<nat>)
      returns (hits: seq<(Path, LiteMeta)>)
      requires Valid()
      ensures AnswersWith(hits, limit, View(), NameMatches(View(), needle, cs, basenameOnly))
    {
      hits := ScanNames(needle, cs, basenameOnly, limit);
      ghost var hit := NamedDoc(paths, tombstones, needle, cs, basenameOnly);
      ghost var found := Candidates.Filter(Candidates.UpTo(|paths|), hit);
      NameFound(byPath, paths, metas, contents, docTrigrams, tombstones, needle, cs, basenameOnly, found);
      RowsAnswer(paths, metas, found, limit, View(), NameMatches(View(), needle, cs, basenameOnly));
    }

    method ScanNames(needle: seq<byte>, cs: bool, basenameOnly: bool, limit: Option<nat>)
      returns (hits: seq<(Path, LiteMeta)>)
      requires |paths| == |metas|
      ensures var hit := NamedDoc(paths, tombstones, needle, cs, basenameOnly);
              var found := Candidates.Filter(Candidates.UpTo(|paths|), hit);
              Within(Cap(found, limit), |paths|) && hits == Rows(paths, metas, Cap(found, limit))
    {
      var lneedle := Fold(needle);
      ghost var hit := NamedDoc(paths, tombstones, needle, cs, basenameOnly);
      ghost var seen: seq<nat> := [];
      hits := [];
      for d := 0 to |paths|
        invariant seen == Candidates.Filter(Candidates.UpTo(d), hit)
        invariant Within(seen, |paths|) && hits == Rows(paths, metas, seen)
        invariant limit.Some? ==> |hits| <= limit.value
      {
        SeenSoFar(d, |paths|, hit);
        if limit.Some? && |hits| >= limit.value { return; }
        var path := paths[d];
        if path !in tombstones {
          var hay := if basenameOnly then Basename(path) else path;
          if (if cs then Contains(hay, needle) else Contains(Fold(hay), lneedle)) {
            hits := hits + [(path, metas[d])];
            seen := seen + [d];
          }
        }
      }
    }
  }
}
