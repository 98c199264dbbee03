/** What the daemon does not control: files change at any time, a reader can meet a change
    halfway, and builds can fail.  Every run of the protocol is a run among these. */
module UpdateRaces {
  import opened Prelude
  import opened Bytes
  import opened Records
  import opened Merge
  import opened ColdLayers
  import opened QueryEntry
  import opened UpdateProtocol
  import opened ContentBuild
  import O = Overlay
  import FileDb
  import Shard

  type Path = seq<byte>

  // ---------------------------------------------------------------- changes

  /** Any file can change in any state, locked or not.  Of the path an event is then pending;
      what answers queries, and what is pending of the others, stays as it is. */
  lemma {:induction false} ChangesAnytime(locked: bool, s: State, p: Path, now: Option<FileState>)
    ensures Enabled(locked, s, Change(p, now))
    ensures var t := After(s, Change(p, now));
            && t.names == s.names && t.cold == s.cold && t.overlay == s.overlay
            && (forall q :: Lookup(t.fs, q) == if q == p then now else Lookup(s.fs, q))
            && (forall q :: Pending(t, q) <==> q == p || Pending(s, q))
  {
    var t := After(s, Change(p, now));
    forall q ensures q in t.queue <==> q == p || q in s.queue {
      assert t.queue[|s.queue|] == p;
      if q in s.queue { var i :| 0 <= i < |s.queue| && s.queue[i] == q; assert t.queue[i] == q; }
    }
  }

  /** The state of a daemon that has just loaded the files of a build and an overlay, when they
      tell the files as they are. */
  function Started(cold: Files, v: O.View): State {
    State(Updated(cold, v), [], Idle, Resting, false, MetasOf(cold), cold, v)
  }

  /** A run can start so over any build that was opened, and any overlay. */
  lemma {:induction false} AnyStart(db: FileDb.DbReader, srcs: seq<seq<byte>>, ov: O.Overlay, h: nat -> nat,
      groups: seq<seq<Shard.File>>, recs: seq<BuildRec>)
    requires NameDb(db, h, recs) && ShardSet(srcs, groups, h, recs) && ov.Valid()
    ensures var s := Started(FilesOf(recs), ov.View());
            Run(true, [s], []) && Serves(s, db, srcs, ov, h, recs, groups, recs)
  {
    var s := Started(FilesOf(recs), ov.View());
    forall p ensures Seen(s, p) == Lookup(s.fs, p) && NameSeen(s, p) == Named(Lookup(s.fs, p)) {
      UpdatedAt(FilesOf(recs), ov.View(), p);
    }
  }

  // ---------------------------------------------------------------- readers

  datatype Reader = Recorder | Compactor | SafetyNet

  predicate AtWork(r: Reader, s: State) {
    match r
    case Recorder => s.watcher.Recording?
    case Compactor => s.watcher.Compacting?
    case SafetyNet => s.net.Rebuilding?
  }

  /** The paths of which the reader can find anything. */
  function AtRisk(r: Reader, s: State): set<Path>
    requires AtWork(r, s)
  {
    match r
    case Recorder => s.watcher.touched
    case Compactor => s.watcher.walk.touched
    case SafetyNet => s.net.walk.touched
  }

  lemma {:induction false} RiskStays(locked: bool, r: Reader, s: State, a: Action)
    requires Enabled(locked, s, a) && AtWork(r, s) && AtWork(r, After(s, a))
    ensures AtRisk(r, s) <= AtRisk(r, After(s, a))
    ensures a.Change? ==> a.path in AtRisk(r, After(s, a))
  {
    match r
    case Recorder =>
    case Compactor =>
    case SafetyNet =>
  }

  lemma {:induction false} ChangedAtRisk(locked: bool, r: Reader, ss: seq<State>, actions: seq<Action>, j: nat)
    requires Chain(locked, ss, actions) && (forall s :: s in ss ==> AtWork(r, s))
    requires j < |actions| && actions[j].Change?
    ensures actions[j].path in AtRisk(r, ss[|actions|])
  {
    var n := |actions| - 1;
    assert Leads(locked, ss[n], actions[n], ss[n + 1]) && ss[n] in ss && ss[n + 1] in ss;
    RiskStays(locked, r, ss[n], actions[n]);
    if j < n {
      forall i | 0 <= i < n ensures Leads(locked, ss[..n + 1][i], actions[..n][i], ss[..n + 1][i + 1]) {
        assert Leads(locked, ss[i], actions[i], ss[i + 1]);
      }
      ChangedAtRisk(locked, r, ss[..n + 1], actions[..n], j);
    }
  }

  /** What a reader can find of a path that changed since it started: the file as it was, as it
      is, or anything between.  A build need not have met it at all. */
  lemma {:induction false} Races(locked: bool, r: Reader, ss: seq<State>, actions: seq<Action>, j: nat,
      found: Option<FileState>)
    requires Chain(locked, ss, actions) && (forall s :: s in ss ==> AtWork(r, s))
    requires j < |actions| && actions[j].Change?
    ensures var s, p := ss[|actions|], actions[j].path;
            AtWork(r, s) && match r
            case Recorder => s.watcher.todo != [] && s.watcher.todo[0] == p ==> Enabled(locked, s, Record(found))
            case Compactor =>
              && Enabled(locked, s, CompactionVisits(p, found))
              && ((forall q :: q in s.fs ==> q == p || q in s.watcher.walk.seen) ==> Enabled(locked, s, SwapCompacted))
            case SafetyNet =>
              && Enabled(locked, s, NetVisits(p, found))
              && ((forall q :: q in s.fs ==> q == p || q in s.net.walk.seen) ==> Enabled(locked, s, SwapNet))
  {
    assert ss[|actions|] in ss;
    ChangedAtRisk(locked, r, ss, actions, j);
  }

  /** A build that has not been published can fail, and then nothing but the marker has changed
      for the others. */
  lemma {:induction false} BuildsCanFail(locked: bool, s: State)
    ensures s.watcher.Compacting? ==>
      Enabled(locked, s, CompactionFails) && After(s, CompactionFails) == s.(watcher := Idle, marker := false)
    ensures s.net.Rebuilding? ==>
      Enabled(locked, s, NetFails) && After(s, NetFails) == s.(net := Resting, marker := false)
  {
  }
}
