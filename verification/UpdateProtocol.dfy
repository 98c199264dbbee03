/** How a running daemon keeps its index current: the watcher folds change events into
    the overlay and compacts, while the safety net rebuilds beside it.  One build
    marker keeps the two builders apart. */
module UpdateProtocol {
  import opened Prelude
  import opened Bytes
  import opened Records
  import opened ContentBuild
  import opened Merge
  import opened ColdLayers
  import opened QueryEntry
  import O = Overlay
  import FileDb
  import Shard

  // ---------------------------------------------------------------- state

  /** A build in progress: the paths visited, what was read of them, and the paths
      that changed since it began. */
  datatype Walk = Walk(seen: set<Path>, read: Files, touched: set<Path>)

  datatype Watcher =
    | Idle
    | Collecting(batch: seq<Path>)
    | Recording(todo: seq<Path>, recs: seq<O.WalRecord>, touched: set<Path>)
    | Applied
    | Compacting(walk: Walk)
    | Swapped(built: Files)
    | Cleared(built: Files, dropped: O.View)
    | Refreshed

  datatype Net = Resting | Rebuilding(walk: Walk) | Published(built: Files) | Reloaded

  /** The files, the events not yet received, the two threads, the marker, and what
      answers queries: the filename reader, the content shards and the overlay. */
  datatype State = State(
    fs: Files, queue: seq<Path>, watcher: Watcher, net: Net, marker: bool, names: Metas, cold: Files,
    overlay: O.View)

  /** What a content query sees of a path: the overlay where it shadows, else the shards. */
  function Seen(s: State, p: Path): Option<FileState> {
    if p in s.overlay then Holding(s.overlay[p]) else Lookup(s.cold, p)
  }

  /** What a filename query sees of it: the overlay, else the reader. */
  function NameSeen(s: State, p: Path): Option<LiteMeta> { NameView(s.overlay, s.names, p) }

  function NameView(v: O.View, names: Metas, p: Path): Option<LiteMeta> {
    if p in v then Named(Holding(v[p])) else Lookup(names, p)
  }

  function Holding(e: O.Entry): Option<FileState> {
    match e case Live(m, c) => Some(FileState(m, c)) case Deleted => None
  }

  function RecordOf(p: Path, f: Option<FileState>): O.WalRecord {
    match f case None => O.Delete(p) case Some(f) => O.Upsert(p, f.meta, f.content)
  }

  /** A change of `p` has not reached the overlay yet. */
  predicate Pending(s: State, p: Path) { p in s.queue || InBatch(s.watcher, p) }

  predicate InBatch(w: Watcher, p: Path) {
    match w
    case Collecting(batch) => p in batch
    case Recording(todo, recs, _) => p in todo || O.Touches(recs, p)
    case _ => false
  }

  // ---------------------------------------------------------------- steps

  datatype Action =
    | Change(path: Path, now: Option<FileState>)
    | Receive
    | StartRecords
    | Record(found: Option<FileState>)
    | ApplyBatch
    | SkipCompaction
    | StartCompaction
    | CompactionVisits(path: Path, found: Option<FileState>)
    | CompactionFails
    | SwapCompacted
    | ClearOverlay
    | ReloadNames
    | ReleaseCompaction
    | StartNet
    | NetVisits(path: Path, found: Option<FileState>)
    | NetFails
    | SwapNet
    | NetReloadNames
    | ReleaseNet

  /** A read of `p` finds the file as it is, or anything when `p` changed since the
      reader started, since then the read may have come before, during or after. */
  predicate Finds(fs: Files, touched: set<Path>, p: Path, found: Option<FileState>) {
    found == Lookup(fs, p) || p in touched
  }

  /** The walk visited every file that was there all the time. */
  predicate Complete(fs: Files, w: Walk) { forall p :: p in fs ==> p in w.seen || p in w.touched }

  predicate Enabled(locked: bool, s: State, a: Action) {
    match a
    case Change(_, _) => true
    case Receive => (s.watcher.Idle? || s.watcher.Collecting?) && s.queue != []
    case StartRecords => s.watcher.Collecting?
    case Record(found) =>
      s.watcher.Recording? && s.watcher.todo != [] && Finds(s.fs, s.watcher.touched, s.watcher.todo[0], found)
    case ApplyBatch => s.watcher.Recording? && s.watcher.todo == []
    case SkipCompaction => s.watcher.Applied?
    case StartCompaction => s.watcher.Applied? && (locked ==> !s.marker)
    case CompactionVisits(p, found) => s.watcher.Compacting? && Finds(s.fs, s.watcher.walk.touched, p, found)
    case CompactionFails => s.watcher.Compacting?
    case SwapCompacted => s.watcher.Compacting? && Complete(s.fs, s.watcher.walk)
    case ClearOverlay => s.watcher.Swapped?
    case ReloadNames => s.watcher.Cleared?
    case ReleaseCompaction => s.watcher.Refreshed?
    case StartNet => s.net.Resting? && (locked ==> !s.marker)
    case NetVisits(p, found) => s.net.Rebuilding? && Finds(s.fs, s.net.walk.touched, p, found)
    case NetFails => s.net.Rebuilding?
    case SwapNet => s.net.Rebuilding? && Complete(s.fs, s.net.walk)
    case NetReloadNames => s.net.Published?
    case ReleaseNet => s.net.Reloaded?
  }

  function Put(files: Files, p: Path, f: Option<FileState>): Files {
    match f case Some(x) => files[p := x] case None => files - {p}
  }

  function Visit(w: Walk, p: Path, found: Option<FileState>): Walk {
    w.(seen := w.seen + {p}, read := Put(w.read, p, found))
  }

  function TouchWatcher(w: Watcher, p: Path): Watcher {
    match w
    case Recording(_, _, touched) => w.(touched := touched + {p})
    case Compacting(walk) => Compacting(walk.(touched := walk.touched + {p}))
    case _ => w
  }

  function TouchNet(n: Net, p: Path): Net {
    match n case Rebuilding(walk) => Rebuilding(walk.(touched := walk.touched + {p})) case _ => n
  }

  const NEW_WALK := Walk({}, map[], {})

  function After(s: State, a: Action): State
    requires Enabled(false, s, a)
  {
    match a
    case Change(p, now) =>
      s.(fs := Put(s.fs, p, now), queue := s.queue + [p],
         watcher := TouchWatcher(s.watcher, p), net := TouchNet(s.net, p))
    case Receive =>
      s.(queue := s.queue[1..],
         watcher := Collecting((if s.watcher.Collecting? then s.watcher.batch else []) + [s.queue[0]]))
    case StartRecords => s.(watcher := Recording(s.watcher.batch, [], {}))
    case Record(found) =>
      var w := s.watcher;
      s.(watcher := w.(todo := w.todo[1..], recs := w.recs + [RecordOf(w.todo[0], found)]))
    case ApplyBatch => s.(watcher := Applied, overlay := O.Replay(s.overlay, s.watcher.recs))
    case SkipCompaction => s.(watcher := Idle)
    case StartCompaction => s.(watcher := Compacting(NEW_WALK), marker := true)
    case CompactionVisits(p, found) => s.(watcher := Compacting(Visit(s.watcher.walk, p, found)))
    case CompactionFails => s.(watcher := Idle, marker := false)
    case SwapCompacted => s.(watcher := Swapped(s.watcher.walk.read), cold := s.watcher.walk.read)
    case ClearOverlay => s.(watcher := Cleared(s.watcher.built, s.overlay), overlay := map[])
    case ReloadNames => s.(watcher := Refreshed, names := MetasOf(s.watcher.built))
    case ReleaseCompaction => s.(watcher := Idle, marker := false)
    case StartNet => s.(net := Rebuilding(NEW_WALK), marker := true)
    case NetVisits(p, found) => s.(net := Rebuilding(Visit(s.net.walk, p, found)))
    case NetFails => s.(net := Resting, marker := false)
    case SwapNet => s.(net := Published(s.net.walk.read), cold := s.net.walk.read)
    case NetReloadNames => s.(net := Reloaded, names := MetasOf(s.net.built))
    case ReleaseNet => s.(net := Resting, marker := false)
  }

  // ---------------------------------------------------------------- invariant

  predicate WatcherBuilds(w: Watcher) { w.Compacting? || w.Swapped? || w.Cleared? || w.Refreshed? }

  /** The marker is held exactly while one of the two builds. */
  predicate Exclusive(s: State) {
    && !(WatcherBuilds(s.watcher) && !s.net.Resting?)
    && (s.marker <==> WatcherBuilds(s.watcher) || !s.net.Resting?)
  }

  /** A path without a waiting event is seen as it is; by name, save between the clear
      and the reload of the filename reader. */
  predicate Current(s: State, p: Path) {
    !Pending(s, p) ==>
      && Seen(s, p) == Lookup(s.fs, p)
      && (!s.watcher.Cleared? ==> NameSeen(s, p) == Named(Lookup(s.fs, p)))
  }

  /** What each phase of the watcher knows about `p`, unless another event waits. */
  predicate WatcherKnows(s: State, p: Path) {
    match s.watcher
    case Recording(_, recs, touched) =>
      && (p in touched ==> p in s.queue)
      && (O.Touches(recs, p) ==> p in s.queue || Holding(O.Last(recs, p)) == Lookup(s.fs, p))
    case Compacting(w) =>
      && (p in w.touched ==> p in s.queue) && (p in w.read ==> p in w.seen)
      && (p in w.seen ==> p in s.queue || Lookup(w.read, p) == Lookup(s.fs, p))
    case Swapped(built) => s.cold == built && (p in s.queue || Lookup(built, p) == Lookup(s.fs, p))
    case Cleared(built, dropped) =>
      && s.cold == built && s.overlay == map[]
      && (p in s.queue || Lookup(built, p) == Lookup(s.fs, p))
      && (p in s.queue || NameView(dropped, s.names, p) == Named(Lookup(s.fs, p)))
    case _ => true
  }

  /** Likewise for the safety net, whose stale reads the overlay covers. */
  predicate NetKnows(s: State, p: Path) {
    match s.net
    case Rebuilding(w) =>
      && (p in w.touched ==> Pending(s, p) || p in s.overlay) && (p in w.read ==> p in w.seen)
      && (p in w.seen ==> Pending(s, p) || p in s.overlay || Lookup(w.read, p) == Lookup(s.fs, p))
    case Published(built) => Pending(s, p) || p in s.overlay || Lookup(built, p) == Lookup(s.fs, p)
    case _ => true
  }

  predicate Sound(s: State, p: Path) { Current(s, p) && WatcherKnows(s, p) && NetKnows(s, p) }

  ghost predicate Inv(s: State) { Exclusive(s) && forall p :: Sound(s, p) }

  // ---------------------------------------------------------------- preservation

  lemma {:induction false} ChangeKeeps(s: State, q: Path, now: Option<FileState>, p: Path)
    requires Exclusive(s) && Sound(s, p)
    ensures Sound(After(s, Change(q, now)), p)
  {
    var t := After(s, Change(q, now));
    assert q in t.queue && (p in s.queue ==> p in t.queue);
    if p != q {
      assert Lookup(t.fs, p) == Lookup(s.fs, p) && (p in t.queue <==> p in s.queue);
    }
  }

  lemma {:induction false} ReceiveKeeps(s: State, p: Path)
    requires Exclusive(s) && Sound(s, p) && Enabled(true, s, Receive)
    ensures Sound(After(s, Receive), p)
  {
    var t := After(s, Receive);
    assert s.queue == [s.queue[0]] + s.queue[1..];
    assert Pending(t, p) <==> Pending(s, p);
  }

  lemma {:induction false} StartRecordsKeeps(s: State, p: Path)
    requires Exclusive(s) && Sound(s, p) && Enabled(true, s, StartRecords)
    ensures Sound(After(s, StartRecords), p)
  {
    assert Pending(After(s, StartRecords), p) <==> Pending(s, p);
  }

  lemma {:induction false} NextRecord(recs: seq<O.WalRecord>, r: O.WalRecord, p: Path)
    ensures O.Touches(recs + [r], p) <==> O.Touches(recs, p) || r.path == p
    ensures O.Touches(recs + [r], p) ==> O.Last(recs + [r], p) == if r.path == p then O.EntryOf(r) else O.Last(recs, p)
  {
    var all := recs + [r];
    assert all[..|recs|] == recs;
    if O.Touches(recs, p) { var i :| 0 <= i < |recs| && recs[i].path == p; assert all[i].path == p; }
    if r.path == p { assert all[|recs|].path == p; }
    if O.Touches(all, p) && r.path != p { var i :| 0 <= i < |all| && all[i].path == p; assert recs[i].path == p; }
  }

  lemma {:induction false} RecordKeeps(s: State, found: Option<FileState>, p: Path)
    requires Exclusive(s) && Sound(s, p) && Enabled(true, s, Record(found))
    ensures Sound(After(s, Record(found)), p)
  {
    var w, t := s.watcher, After(s, Record(found));
    NextRecord(w.recs, RecordOf(w.todo[0], found), p);
    assert w.todo == [w.todo[0]] + w.todo[1..];
    assert Pending(t, p) <==> Pending(s, p);
  }

  lemma {:induction false} ApplyKeeps(s: State, p: Path)
    requires Exclusive(s) && Sound(s, p) && Enabled(true, s, ApplyBatch)
    ensures Sound(After(s, ApplyBatch), p)
  {
    O.ReplayExact(s.overlay, s.watcher.recs, p);
  }

  /** Compaction: what it read is current for every path without a waiting event, so
      clearing the overlay after the swap loses nothing. */
  lemma {:induction false} CompactionKeeps(s: State, a: Action, p: Path)
    requires Exclusive(s) && Sound(s, p) && Enabled(true, s, a)
    requires a.SkipCompaction? || a.StartCompaction? || a.CompactionVisits? || a.CompactionFails?
          || a.SwapCompacted? || a.ClearOverlay? || a.ReloadNames? || a.ReleaseCompaction?
    ensures Sound(After(s, a), p)
  {
  }

  /** The safety net: what it read is current, or the overlay covers it. */
  lemma {:induction false} NetKeeps(s: State, a: Action, p: Path)
    requires Exclusive(s) && Sound(s, p) && Enabled(true, s, a)
    requires a.StartNet? || a.NetVisits? || a.NetFails? || a.SwapNet? || a.NetReloadNames? || a.ReleaseNet?
    ensures Sound(After(s, a), p)
  {
  }

  lemma {:induction false} StepKeeps(s: State, a: Action, p: Path)
    requires Exclusive(s) && Sound(s, p) && Enabled(true, s, a)
    ensures Sound(After(s, a), p)
  {
    match a
    case Change(q, now) => ChangeKeeps(s, q, now, p);
    case Receive => ReceiveKeeps(s, p);
    case StartRecords => StartRecordsKeeps(s, p);
    case Record(found) => RecordKeeps(s, found, p);
    case ApplyBatch => ApplyKeeps(s, p);
    case StartNet => NetKeeps(s, a, p);
    case NetVisits(_, _) => NetKeeps(s, a, p);
    case NetFails => NetKeeps(s, a, p);
    case SwapNet => NetKeeps(s, a, p);
    case NetReloadNames => NetKeeps(s, a, p);
    case ReleaseNet => NetKeeps(s, a, p);
    case _ => CompactionKeeps(s, a, p);
  }

  lemma {:induction false} StaysExclusive(s: State, a: Action)
    requires Exclusive(s) && Enabled(true, s, a)
    ensures Exclusive(After(s, a))
  {
  }

  // ---------------------------------------------------------------- runs

  /** A daemon that starts with an index of the files as they are. */
  ghost predicate Init(s: State) {
    && s.queue == [] && s.watcher.Idle? && s.net.Resting? && !s.marker
    && forall p :: Seen(s, p) == Lookup(s.fs, p) && NameSeen(s, p) == Named(Lookup(s.fs, p))
  }

  ghost predicate Run(locked: bool, ss: seq<State>, actions: seq<Action>) {
    && |ss| == |actions| + 1 && Init(ss[0])
    && forall i :: 0 <= i < |actions| ==> Enabled(locked, ss[i], actions[i]) && ss[i + 1] == After(ss[i], actions[i])
  }

  lemma {:induction false} RunKeeps(ss: seq<State>, actions: seq<Action>, i: nat)
    requires Run(true, ss, actions) && i < |ss|
    ensures Inv(ss[i])
  {
    if i > 0 {
      RunKeeps(ss, actions, i - 1);
      var s, a := ss[i - 1], actions[i - 1];
      assert Enabled(true, s, a) && ss[i] == After(s, a);
      StaysExclusive(s, a);
      forall p ensures Sound(ss[i], p) { StepKeeps(s, a, p); }
    }
  }

  /** In every run of file changes, watcher batches, compactions and safety-net
      rebuilds, at every step, each path without a pending event is seen as it is. */
  lemma {:induction false} AlwaysCurrent(ss: seq<State>, actions: seq<Action>, i: nat, p: Path)
    requires Run(true, ss, actions) && i < |ss| && !Pending(ss[i], p)
    ensures Seen(ss[i], p) == Lookup(ss[i].fs, p)
  {
    RunKeeps(ss, actions, i);
    assert Sound(ss[i], p);
  }

  /** By name likewise, except while a compaction has cleared the overlay and not yet
      reloaded the filename reader. */
  lemma {:induction false} NamesCurrent(ss: seq<State>, actions: seq<Action>, i: nat, p: Path)
    requires Run(true, ss, actions) && i < |ss| && !Pending(ss[i], p) && !ss[i].watcher.Cleared?
    ensures NameSeen(ss[i], p) == Named(Lookup(ss[i].fs, p))
  {
    RunKeeps(ss, actions, i);
    assert Sound(ss[i], p);
  }

  /** The entry of `p` that the clear dropped told what the old reader tells. */
  predicate NoNews(dropped: O.View, names: Metas, p: Path) {
    p in dropped ==> Named(Holding(dropped[p])) == Lookup(names, p)
  }

  /** In that window, a path is seen right by name if and only if the overlay had no
      news of it for the old reader. */
  lemma {:induction false} WindowIff(ss: seq<State>, actions: seq<Action>, i: nat, p: Path)
    requires Run(true, ss, actions) && i < |ss| && !Pending(ss[i], p) && ss[i].watcher.Cleared?
    ensures NameSeen(ss[i], p) == Named(Lookup(ss[i].fs, p)) <==> NoNews(ss[i].watcher.dropped, ss[i].names, p)
  {
    RunKeeps(ss, actions, i);
    assert Sound(ss[i], p);
  }

  /** The names of `p` can be asked for. */
  predicate NamesReady(s: State, p: Path) { s.watcher.Cleared? ==> NoNews(s.watcher.dropped, s.names, p) }

  // ---------------------------------------------------------------- queries in a run

  lemma {:induction false} SeenUpdated(s: State, p: Path)
    ensures Lookup(Updated(s.cold, s.overlay), p) == Seen(s, p)
  {
  }

  lemma {:induction false} ContentOnly(qr: Query, names: Metas, files: Files, v: O.View)
    requires !qr.wantFn
    ensures LayerScan(qr, names, files, v) == LayerScan(qr, MetasOf(files), files, v)
  {
    assert AllNames(qr, names, v) == AllNames(qr, MetasOf(files), v);
  }

  /** At every step of every run, a plain query finds of each path without a pending
      event what a scan of the files would. */
  lemma {:induction false} FoundCurrent(ss: seq<State>, actions: seq<Action>, i: nat, qr: Query, p: Path)
    requires Run(true, ss, actions) && i < |ss| && !Pending(ss[i], p)
    requires qr.Plain() && (qr.wantFn ==> NamesReady(ss[i], p))
    ensures var s := ss[i];
            Lookup(LayerScan(qr, s.names, s.cold, s.overlay), p) == Expect(qr, Lookup(s.fs, p), p)
  {
    var s := ss[i];
    AlwaysCurrent(ss, actions, i, p);
    SeenUpdated(s, p);
    if qr.wantFn {
      if s.watcher.Cleared? { WindowIff(ss, actions, i, p); } else { NamesCurrent(ss, actions, i, p); }
      LayerCell(qr, s.names, s.cold, s.overlay, p);
    } else {
      ContentOnly(qr, s.names, s.cold, s.overlay);
      OneBuildAgrees(s.cold, s.overlay);
      LayerCell(qr, MetasOf(s.cold), s.cold, s.overlay, p);
    }
  }

  /** ... so whenever no event is pending, it answers for the files as they are. */
  lemma {:induction false} QuietIsExact(ss: seq<State>, actions: seq<Action>, i: nat, qr: Query)
    requires Run(true, ss, actions) && i < |ss| && forall p :: !Pending(ss[i], p)
    requires qr.Plain() && (qr.wantFn ==> forall p :: NamesReady(ss[i], p))
    ensures LayerScan(qr, ss[i].names, ss[i].cold, ss[i].overlay) == ScanFiles(qr, ss[i].fs)
  {
    var s := ss[i];
    forall p ensures Lookup(LayerScan(qr, s.names, s.cold, s.overlay), p) == Lookup(ScanFiles(qr, s.fs), p) {
      FoundCurrent(ss, actions, i, qr, p);
      ScanCell(qr, s.fs, p);
    }
    SameMap(LayerScan(qr, s.names, s.cold, s.overlay), ScanFiles(qr, s.fs));
  }

  lemma {:induction false} AnswerCurrent(result: Matches, ss: seq<State>, actions: seq<Action>, i: nat, qr: Query)
    requires Run(true, ss, actions) && i < |ss| && qr.Plain()
    requires result == LayerScan(qr, ss[i].names, ss[i].cold, ss[i].overlay)
    ensures forall p :: !Pending(ss[i], p) && (qr.wantFn ==> NamesReady(ss[i], p)) ==>
      Lookup(result, p) == Expect(qr, Lookup(ss[i].fs, p), p)
    ensures (forall p :: !Pending(ss[i], p) && (qr.wantFn ==> NamesReady(ss[i], p))) ==>
      result == ScanFiles(qr, ss[i].fs)
  {
    var s := ss[i];
    forall p | !Pending(s, p) && (qr.wantFn ==> NamesReady(s, p))
      ensures Lookup(result, p) == Expect(qr, Lookup(s.fs, p), p)
    {
      FoundCurrent(ss, actions, i, qr, p);
    }
    if forall p :: !Pending(s, p) && (qr.wantFn ==> NamesReady(s, p)) { QuietIsExact(ss, actions, i, qr); }
  }

  /** The reader, the shards and the overlay of a state. */
  ghost predicate Serves(s: State, db: FileDb.DbReader, srcs: seq<seq<byte>>, ov: O.Overlay, h: nat -> nat,
      names: seq<BuildRec>, groups: seq<seq<Shard.File>>, recs: seq<BuildRec>)
    reads db, ov
  {
    && NameDb(db, h, names) && ShardSet(srcs, groups, h, recs) && ov.Valid()
    && s.names == MetasOf(FilesOf(names)) && s.cold == FilesOf(recs) && s.overlay == ov.View()
  }

  /** A query over what a state serves, without limits. */
  method QueryServed(db: FileDb.DbReader, srcs: seq<seq<byte>>, ov: O.Overlay, h: nat -> nat, qr: Query,
      ghost names: seq<BuildRec>, ghost groups: seq<seq<Shard.File>>, ghost recs: seq<BuildRec>, ghost s: State)
    returns (result: Matches)
    requires Serves(s, db, srcs, ov, h, names, groups, recs)
    modifies db
    ensures result == LayerScan(qr, s.names, s.cold, s.overlay)
  {
    ghost var hot;
    result, hot := QueryOne(db, srcs, ov, h, qr, NO_LIMITS, names, groups, recs);
  }

  /** A query at step `i` of a run, without limits. */
  method AnswerAt(db: FileDb.DbReader, srcs: seq<seq<byte>>, ov: O.Overlay, h: nat -> nat, qr: Query,
      ghost names: seq<BuildRec>, ghost groups: seq<seq<Shard.File>>, ghost recs: seq<BuildRec>, ghost ss: seq<State>,
      ghost actions: seq<Action>, ghost i: nat)
    returns (result: Matches)
    requires Run(true, ss, actions) && i < |ss| && qr.Plain() && Serves(ss[i], db, srcs, ov, h, names, groups, recs)
    modifies db
    ensures forall p :: !Pending(ss[i], p) && (qr.wantFn ==> NamesReady(ss[i], p)) ==>
      Lookup(result, p) == Expect(qr, Lookup(ss[i].fs, p), p)
    ensures (forall p :: !Pending(ss[i], p) && (qr.wantFn ==> NamesReady(ss[i], p))) ==>
      result == ScanFiles(qr, ss[i].fs)
  {
    result := QueryServed(db, srcs, ov, h, qr, names, groups, recs, ss[i]);
    AnswerCurrent(result, ss, actions, i, qr);
  }

  // ---------------------------------------------------------------- two runs that fail

  predicate Leads(locked: bool, s: State, a: Action, t: State) { Enabled(locked, s, a) && After(s, a) == t }

  /** Each state leads to the next. */
  ghost predicate Chain(locked: bool, ss: seq<State>, actions: seq<Action>) {
    |ss| == |actions| + 1 && forall i :: 0 <= i < |actions| ==> Leads(locked, ss[i], actions[i], ss[i + 1])
  }

  lemma {:induction false} JoinChains(locked: bool, ss: seq<State>, actions: seq<Action>, more: seq<State>,
      steps: seq<Action>)
    requires Chain(locked, ss, actions) && Chain(locked, more, steps) && more[0] == ss[|ss| - 1]
    ensures Chain(locked, ss + more[1..], actions + steps)
  {
    var all, acts := ss + more[1..], actions + steps;
    var n := |actions|;
    forall i | 0 <= i < |acts| ensures Leads(locked, all[i], acts[i], all[i + 1]) {
      if i < n {
        assert Leads(locked, ss[i], actions[i], ss[i + 1]);
      } else {
        assert Leads(locked, more[i - n], steps[i - n], more[i - n + 1]);
        assert all[i] == more[i - n];
      }
    }
  }

  lemma {:induction false} ChainRuns(locked: bool, ss: seq<State>, actions: seq<Action>)
    requires Chain(locked, ss, actions) && Init(ss[0])
    ensures Run(locked, ss, actions)
  {
    forall i | 0 <= i < |actions| ensures Enabled(locked, ss[i], actions[i]) && ss[i + 1] == After(ss[i], actions[i]) {
      assert Leads(locked, ss[i], actions[i], ss[i + 1]);
    }
  }

  function Entered(f: FileState): O.Entry { O.Live(f.meta, f.content) }

  /** A daemon at rest over one file. */
  function AtRest(p: Path, f: FileState): State {
    State(map[p := f], [], Idle, Resting, false, map[p := f.meta], map[p := f], map[])
  }

  lemma {:induction false} RestingInit(p: Path, f: FileState)
    ensures Init(AtRest(p, f))
  {
  }

  lemma {:induction false} ReplayOne(v: O.View, rec: O.WalRecord)
    ensures O.Replay(v, [rec]) == O.Step(v, rec)
  {
    assert [rec][..0] == [];
  }

  /** The watcher takes in one change of `p`. */
  lemma {:induction false} ChangeRecorded(locked: bool, s: State, p: Path, later: FileState)
    returns (ss: seq<State>, actions: seq<Action>)
    requires s.watcher.Idle? && s.queue == [] && s.overlay == map[] && p in s.fs
    ensures Chain(locked, ss, actions) && ss[0] == s
    ensures ss[|ss| - 1]
      == s.(fs := s.fs[p := later], watcher := Applied, net := TouchNet(s.net, p), overlay := map[p := Entered(later)])
  {
    var rec := O.Upsert(p, later.meta, later.content);
    var s1 := s.(fs := s.fs[p := later], queue := [p], net := TouchNet(s.net, p));
    var s2 := s1.(queue := [], watcher := Collecting([p]));
    var s3 := s2.(watcher := Recording([p], [], {}));
    var s4 := s3.(watcher := Recording([], [rec], {}));
    var s5 := s4.(watcher := Applied, overlay := map[p := Entered(later)]);
    assert Leads(locked, s, Change(p, Some(later)), s1);
    assert Leads(locked, s1, Receive, s2);
    assert Leads(locked, s2, StartRecords, s3);
    assert Leads(locked, s3, Record(Some(later)), s4) by { assert [p][1..] == [] && [] + [rec] == [rec]; }
    ReplayOne(map[], rec);
    assert Leads(locked, s4, ApplyBatch, s5);
    ss := [s, s1, s2, s3, s4, s5];
    actions := [Change(p, Some(later)), Receive, StartRecords, Record(Some(later)), ApplyBatch];
  }

  lemma {:induction false} FirstVisit(p: Path, f: FileState)
    ensures Visit(NEW_WALK, p, Some(f)) == Walk({p}, map[p := f], {})
  {
    assert NEW_WALK.seen + {p} == {p} && NEW_WALK.read[p := f] == map[p := f];
  }

  /** A compaction publishes the one file and clears the overlay. */
  lemma {:induction false} CompactedOne(locked: bool, s: State, p: Path, f: FileState)
    returns (ss: seq<State>, actions: seq<Action>)
    requires s.watcher.Applied? && (locked ==> !s.marker) && s.fs == map[p := f]
    ensures Chain(locked, ss, actions) && ss[0] == s
    ensures ss[|ss| - 1]
      == s.(watcher := Cleared(map[p := f], s.overlay), marker := true, cold := map[p := f], overlay := map[])
  {
    var now := map[p := f];
    var s1 := s.(watcher := Compacting(NEW_WALK), marker := true);
    var s2 := s1.(watcher := Compacting(Walk({p}, now, {})));
    var s3 := s2.(watcher := Swapped(now), cold := now);
    var s4 := s3.(watcher := Cleared(now, s.overlay), overlay := map[]);
    assert Leads(locked, s, StartCompaction, s1);
    FirstVisit(p, f);
    assert Leads(locked, s1, CompactionVisits(p, Some(f)), s2);
    assert Leads(locked, s2, SwapCompacted, s3);
    assert Leads(locked, s3, ClearOverlay, s4);
    ss := [s, s1, s2, s3, s4];
    actions := [StartCompaction, CompactionVisits(p, Some(f)), SwapCompacted, ClearOverlay];
  }

  /** The filename layer can be stale although no event is pending: after a change whose
      metadata is new, between the clear and the reload of the reader. */
  lemma {:induction false} NamesStaleInWindow(p: Path, before: FileState, later: FileState)
    requires before.meta != later.meta
    ensures exists ss: seq<State>, actions: seq<Action>, i: nat ::
      && Run(true, ss, actions) && i < |ss| && (forall q :: !Pending(ss[i], q))
      && NameSeen(ss[i], p) != Named(Lookup(ss[i].fs, p))
  {
    var s := AtRest(p, before);
    RestingInit(p, before);
    var ss, actions := ChangeRecorded(true, s, p, later);
    var t := ss[|ss| - 1];
    assert t.fs == map[p := later];
    var more, steps := CompactedOne(true, t, p, later);
    JoinChains(true, ss, actions, more, steps);
    var all := ss + more[1..];
    ChainRuns(true, all, actions + steps);
    var last := all[|all| - 1];
    assert last == more[|more| - 1];
    assert NameSeen(last, p) == Some(before.meta) && Lookup(last.fs, p) == Some(later);
  }

  /** The safety net reads `p`, and before it is done `p` changes and a compaction
      publishes the change. */
  lemma {:induction false} StaleRead(p: Path, before: FileState, later: FileState)
    returns (ss: seq<State>, actions: seq<Action>)
    ensures Chain(false, ss, actions) && Init(ss[0])
    ensures var s := ss[|ss| - 1];
            && s.fs == map[p := later] && s.queue == [] && s.overlay == map[] && s.watcher.Cleared?
            && s.net == Rebuilding(Walk({p}, map[p := before], {p}))
  {
    var s := AtRest(p, before);
    RestingInit(p, before);
    var s1 := s.(net := Rebuilding(NEW_WALK), marker := true);
    var s2 := s1.(net := Rebuilding(Walk({p}, map[p := before], {})));
    assert Leads(false, s, StartNet, s1);
    FirstVisit(p, before);
    assert Leads(false, s1, NetVisits(p, Some(before)), s2);
    var more, steps := ChangeRecorded(false, s2, p, later);
    var t := more[|more| - 1];
    assert t.fs == map[p := later];
    assert TouchNet(s2.net, p) == Rebuilding(Walk({p}, map[p := before], {p}));
    var rest, last := CompactedOne(false, t, p, later);
    JoinChains(false, [s, s1, s2], [StartNet, NetVisits(p, Some(before))], more, steps);
    JoinChains(false, [s, s1, s2] + more[1..], [StartNet, NetVisits(p, Some(before))] + steps, rest, last);
    ss, actions := [s, s1, s2] + more[1..] + rest[1..], [StartNet, NetVisits(p, Some(before))] + steps + last;
  }

  /** Without the marker, a rebuild that read a file before its change can be published
      after a compaction has cleared the change from the overlay. */
  lemma {:induction false} MarkerNeeded(p: Path, before: FileState, later: FileState)
    requires before != later
    ensures exists ss: seq<State>, actions: seq<Action>, i: nat ::
      Run(false, ss, actions) && i < |ss| && !Pending(ss[i], p) && Seen(ss[i], p) != Lookup(ss[i].fs, p)
  {
    var ss, actions := StaleRead(p, before, later);
    var s := ss[|ss| - 1];
    var t := s.(net := Published(map[p := before]), cold := map[p := before]);
    assert Leads(false, s, SwapNet, t);
    JoinChains(false, ss, actions, [s, t], [SwapNet]);
    var all := ss + [s, t][1..];
    ChainRuns(false, all, actions + [SwapNet]);
    assert all[|all| - 1] == t && !Pending(t, p) && Seen(t, p) == Some(before) && Lookup(t.fs, p) == Some(later);
  }
}
