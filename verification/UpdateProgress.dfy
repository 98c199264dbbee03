/** That the daemon gets on with its work: received events reach the overlay, a build
    publishes what it read, and a daemon left alone comes to rest with exact answers. */
module UpdateProgress {
  import opened Prelude
  import opened Bytes
  import opened Records
  import opened Merge
  import opened ColdLayers
  import opened QueryEntry
  import opened UpdateProtocol
  import O = Overlay

  // ---------------------------------------------------------------- reachability

  /** Steps of the daemon alone, while no file changes. */
  ghost predicate Calm(actions: seq<Action>) { forall i :: 0 <= i < |actions| ==> !actions[i].Change? }

  ghost predicate Leading(ss: seq<State>, actions: seq<Action>, s: State, t: State) {
    Chain(true, ss, actions) && Calm(actions) && ss[0] == s && ss[|ss| - 1] == t
  }

  /** The daemon can come from `s` to `t` by itself. */
  ghost predicate Reaches(s: State, t: State) { exists ss, actions :: Leading(ss, actions, s, t) }

  lemma {:induction false} Stay(s: State)
    ensures Reaches(s, s)
  {
    assert Leading([s], [], s, s);
  }

  lemma {:induction false} OneStep(s: State, a: Action, t: State)
    requires Leads(true, s, a, t) && !a.Change?
    ensures Reaches(s, t)
  {
    assert Leading([s, t], [a], s, t);
  }

  lemma {:induction false} Onward(s: State, t: State, u: State)
    requires Reaches(s, t) && Reaches(t, u)
    ensures Reaches(s, u)
  {
    var ss, actions :| Leading(ss, actions, s, t);
    var more, steps :| Leading(more, steps, t, u);
    JoinChains(true, ss, actions, more, steps);
    assert Leading(ss + more[1..], actions + steps, s, u);
  }

  /** One step first, then the rest. */
  lemma {:induction false} StepThen(s: State, a: Action, t: State, u: State)
    requires Leads(true, s, a, t) && !a.Change? && Reaches(t, u)
    ensures Reaches(s, u)
  {
    OneStep(s, a, t);
    Onward(s, t, u);
  }

  /** The rest first, then one step. */
  lemma {:induction false} ThenStep(s: State, t: State, a: Action, u: State)
    requires Reaches(s, t) && Leads(true, t, a, u) && !a.Change?
    ensures Reaches(s, u)
  {
    OneStep(t, a, u);
    Onward(s, t, u);
  }

  // ---------------------------------------------------------------- taking in events

  /** What the watcher writes about a batch when no file changes meanwhile. */
  function RecordsOf(batch: seq<Path>, fs: Files): (recs: seq<O.WalRecord>)
    ensures |recs| == |batch| && forall i :: 0 <= i < |batch| ==> recs[i] == RecordOf(batch[i], Lookup(fs, batch[i]))
  {
    seq(|batch|, i requires 0 <= i < |batch| => RecordOf(batch[i], Lookup(fs, batch[i])))
  }

  lemma {:induction false} FirstRecord(p: Path, rest: seq<Path>, fs: Files)
    ensures RecordsOf([p] + rest, fs) == [RecordOf(p, Lookup(fs, p))] + RecordsOf(rest, fs)
  {
  }

  /** The waiting events join the batch. */
  lemma {:induction false} AllReceived(s: State, batch: seq<Path>)
    requires s.watcher == Collecting(batch)
    ensures Reaches(s, s.(queue := [], watcher := Collecting(batch + s.queue)))
    decreases |s.queue|
  {
    var goal := s.(queue := [], watcher := Collecting(batch + s.queue));
    if s.queue == [] {
      assert batch + [] == batch;
      Stay(s);
    } else {
      var next := s.(queue := s.queue[1..], watcher := Collecting(batch + [s.queue[0]]));
      assert batch + [s.queue[0]] + s.queue[1..] == batch + s.queue;
      AllReceived(next, batch + [s.queue[0]]);
      StepThen(s, Receive, next, goal);
    }
  }

  /** Every path of the batch is read and recorded, in order. */
  lemma {:induction false} AllRecorded(s: State, todo: seq<Path>, recs: seq<O.WalRecord>, touched: set<Path>)
    requires s.watcher == Recording(todo, recs, touched)
    ensures Reaches(s, s.(watcher := Recording([], recs + RecordsOf(todo, s.fs), touched)))
    decreases |todo|
  {
    var goal := s.(watcher := Recording([], recs + RecordsOf(todo, s.fs), touched));
    if todo == [] {
      assert recs + RecordsOf(todo, s.fs) == recs;
      Stay(s);
    } else {
      var p, rest := todo[0], todo[1..];
      var rec := RecordOf(p, Lookup(s.fs, p));
      var next := s.(watcher := Recording(rest, recs + [rec], touched));
      assert Leads(true, s, Record(Lookup(s.fs, p)), next);
      AllRecorded(next, rest, recs + [rec], touched);
      RecordsJoin(recs, todo, s.fs);
      StepThen(s, Record(Lookup(s.fs, p)), next, goal);
    }
  }

  lemma {:induction false} RecordsJoin(recs: seq<O.WalRecord>, todo: seq<Path>, fs: Files)
    requires todo != []
    ensures recs + [RecordOf(todo[0], Lookup(fs, todo[0]))] + RecordsOf(todo[1..], fs) == recs + RecordsOf(todo, fs)
  {
    assert todo == [todo[0]] + todo[1..];
    FirstRecord(todo[0], todo[1..], fs);
  }

  /** The state after a batch was taken in at once. */
  function TakenIn(s: State, batch: seq<Path>): State {
    s.(queue := [], watcher := Applied, overlay := O.Replay(s.overlay, RecordsOf(batch, s.fs)))
  }

  lemma {:induction false} BatchApplied(s: State, batch: seq<Path>)
    requires s.watcher == Collecting(batch) && s.queue == []
    ensures Reaches(s, TakenIn(s, batch))
  {
    var started := s.(watcher := Recording(batch, [], {}));
    var recs := RecordsOf(batch, s.fs);
    var read := s.(watcher := Recording([], recs, {}));
    assert [] + recs == recs;
    AllRecorded(started, batch, [], {});
    StepThen(s, StartRecords, started, read);
    ThenStep(s, read, ApplyBatch, TakenIn(s, batch));
  }

  /** The overlay then tells of each path of the batch what the file is, and of the others
      what it told before. */
  lemma {:induction false} TakenInTells(s: State, batch: seq<Path>, p: Path)
    ensures var v := TakenIn(s, batch).overlay;
            && (p in batch ==> p in v && Holding(v[p]) == Lookup(s.fs, p))
            && (p !in batch ==> Lookup(v, p) == Lookup(s.overlay, p))
  {
    var recs := RecordsOf(batch, s.fs);
    O.ReplayExact(s.overlay, recs, p);
    TouchesBatch(batch, s.fs, p);
    if p in batch { LastTells(batch, s.fs, p); }
  }

  lemma {:induction false} TouchesBatch(batch: seq<Path>, fs: Files, p: Path)
    ensures O.Touches(RecordsOf(batch, fs), p) <==> p in batch
  {
    var recs := RecordsOf(batch, fs);
    if p in batch {
      var i :| 0 <= i < |batch| && batch[i] == p;
      assert recs[i].path == p;
    }
  }

  lemma {:induction false} LastTells(batch: seq<Path>, fs: Files, p: Path)
    requires O.Touches(RecordsOf(batch, fs), p)
    ensures Holding(O.Last(RecordsOf(batch, fs), p)) == Lookup(fs, p)
  {
    var recs, n := RecordsOf(batch, fs), |batch| - 1;
    if recs[n].path != p {
      assert recs[..n] == RecordsOf(batch[..n], fs);
      var i :| 0 <= i < |recs| && recs[i].path == p;
      assert recs[..n][i].path == p;
      LastTells(batch[..n], fs, p);
    }
  }

  /** What waits, in the batch or behind it. */
  function Waiting(s: State): seq<Path> { (if s.watcher.Collecting? then s.watcher.batch else []) + s.queue }

  /** Events that have arrived are taken in: when no file changes meanwhile, nothing is left
      pending, and of each path that waited the overlay tells what the file is. */
  lemma {:induction false} EventsTakenIn(s: State)
    requires s.watcher.Collecting? || (s.watcher.Idle? && s.queue != [])
    ensures var t := TakenIn(s, Waiting(s));
            && Reaches(s, t) && (forall p :: !Pending(t, p))
            && forall p :: p in Waiting(s) ==> p in t.overlay && Holding(t.overlay[p]) == Lookup(s.fs, p)
  {
    var batch, t := Waiting(s), TakenIn(s, Waiting(s));
    var all := s.(queue := [], watcher := Collecting(batch));
    if s.watcher.Idle? {
      var first := s.(queue := s.queue[1..], watcher := Collecting([s.queue[0]]));
      assert [] + [s.queue[0]] == [s.queue[0]] && [s.queue[0]] + s.queue[1..] == batch;
      AllReceived(first, [s.queue[0]]);
      StepThen(s, Receive, first, all);
    } else {
      AllReceived(s, s.watcher.batch);
    }
    BatchApplied(all, batch);
    Onward(s, all, t);
    forall p | p in batch ensures p in t.overlay && Holding(t.overlay[p]) == Lookup(s.fs, p) {
      TakenInTells(s, batch, p);
    }
  }

  // ---------------------------------------------------------------- builds

  /** The files at the paths `ps`. */
  function Restricted(fs: Files, ps: set<Path>): Files { map p | p in fs && p in ps :: fs[p] }

  lemma {:induction false} VisitOne(fs: Files, seen: set<Path>, touched: set<Path>, p: Path)
    requires p in fs
    ensures Visit(Walk(seen, Restricted(fs, seen), touched), p, Some(fs[p]))
         == Walk(seen + {p}, Restricted(fs, seen + {p}), touched)
  {
    assert Restricted(fs, seen)[p := fs[p]] == Restricted(fs, seen + {p});
  }

  /** A walk that has read the files at `seen`. */
  function Reading(s: State, net: bool, seen: set<Path>): State {
    var walk := Walk(seen, Restricted(s.fs, seen), {});
    if net then s.(net := Rebuilding(walk), marker := true) else s.(watcher := Compacting(walk), marker := true)
  }

  lemma {:induction false} VisitStep(s: State, net: bool, seen: set<Path>, p: Path)
    requires p in s.fs
    ensures Leads(true, Reading(s, net, seen),
                  if net then NetVisits(p, Some(s.fs[p])) else CompactionVisits(p, Some(s.fs[p])),
                  Reading(s, net, seen + {p}))
  {
    VisitOne(s.fs, seen, {}, p);
  }

  /** It can go on to the last of them. */
  lemma {:induction false} AllVisited(s: State, net: bool, seen: set<Path>)
    requires seen <= s.fs.Keys
    ensures Reaches(Reading(s, net, seen), Reading(s, net, s.fs.Keys))
    decreases |s.fs.Keys - seen|
  {
    if s.fs.Keys - seen == {} {
      assert seen == s.fs.Keys;
      Stay(Reading(s, net, seen));
    } else {
      var p :| p in s.fs.Keys - seen;
      assert s.fs.Keys - (seen + {p}) == (s.fs.Keys - seen) - {p};
      AllVisited(s, net, seen + {p});
      VisitStep(s, net, seen, p);
      var a := if net then NetVisits(p, Some(s.fs[p])) else CompactionVisits(p, Some(s.fs[p]));
      StepThen(Reading(s, net, seen), a, Reading(s, net, seen + {p}), Reading(s, net, s.fs.Keys));
    }
  }

  lemma {:induction false} WalkOpens(s: State, net: bool)
    ensures Restricted(s.fs, {}) == map[] && Restricted(s.fs, s.fs.Keys) == s.fs
  {
  }

  /** After a compaction the files alone answer. */
  function Compacted(s: State): State {
    s.(watcher := Idle, marker := false, cold := s.fs, names := MetasOf(s.fs), overlay := map[])
  }

  /** A compaction that may start can finish, and leaves exactly the files. */
  lemma {:induction false} CompactionCompletes(s: State)
    requires s.watcher.Applied? && !s.marker
    ensures Reaches(s, Compacted(s))
    ensures forall p :: Seen(Compacted(s), p) == Lookup(s.fs, p) && NameSeen(Compacted(s), p) == Named(Lookup(s.fs, p))
  {
    var fs, v := s.fs, s.overlay;
    WalkOpens(s, false);
    OneStep(s, StartCompaction, Reading(s, false, {}));
    AllVisited(s, false, {});
    var read := Reading(s, false, fs.Keys);
    Onward(s, Reading(s, false, {}), read);
    var swapped := read.(watcher := Swapped(fs), cold := fs);
    var cleared := swapped.(watcher := Cleared(fs, v), overlay := map[]);
    var loaded := cleared.(watcher := Refreshed, names := MetasOf(fs));
    ThenStep(s, read, SwapCompacted, swapped);
    ThenStep(s, swapped, ClearOverlay, cleared);
    ThenStep(s, cleared, ReloadNames, loaded);
    ThenStep(s, loaded, ReleaseCompaction, Compacted(s));
  }

  /** After a rebuild by the safety net the files answer below the overlay. */
  function Rebuilt(s: State): State { s.(net := Resting, marker := false, cold := s.fs, names := MetasOf(s.fs)) }

  /** A rebuild by the safety net that may start can finish.  Whatever changes had been
      missed before, a path is then seen as it is if and only if the overlay has no entry
      for it that tells otherwise. */
  lemma {:induction false} RebuildCompletes(s: State)
    requires s.net.Resting? && !s.marker
    ensures Reaches(s, Rebuilt(s))
    ensures forall p :: Seen(Rebuilt(s), p) == Lookup(s.fs, p) <==>
      (p in s.overlay ==> Holding(s.overlay[p]) == Lookup(s.fs, p))
  {
    var fs := s.fs;
    WalkOpens(s, true);
    OneStep(s, StartNet, Reading(s, true, {}));
    AllVisited(s, true, {});
    var read := Reading(s, true, fs.Keys);
    Onward(s, Reading(s, true, {}), read);
    var swapped := read.(net := Published(fs), cold := fs);
    var loaded := swapped.(net := Reloaded, names := MetasOf(fs));
    ThenStep(s, read, SwapNet, swapped);
    ThenStep(s, swapped, NetReloadNames, loaded);
    ThenStep(s, loaded, ReleaseNet, Rebuilt(s));
  }

  // ---------------------------------------------------------------- coming to rest

  /** The steps that the watcher takes, but for the single visits of a build's walk. */
  predicate WatcherStep(a: Action) {
    match a
    case Change(_, _) => false
    case CompactionVisits(_, _) => false
    case StartNet => false
    case NetVisits(_, _) => false
    case NetFails => false
    case SwapNet => false
    case NetReloadNames => false
    case ReleaseNet => false
    case _ => true
  }

  /** How many such steps the watcher can still take before it waits for events. */
  function Work(s: State): nat {
    10 * |s.queue|
    + match s.watcher
      case Idle => 0
      case Refreshed => 1
      case Cleared(_, _) => 2
      case Swapped(_) => 3
      case Compacting(_) => 4
      case Applied => 5
      case Recording(todo, _, _) => 6 + |todo|
      case Collecting(batch) => 7 + 2 * |batch|
  }

  /** Each of them leaves less to do, and nothing but a file change adds to it. */
  lemma {:induction false} WorkShrinks(s: State, a: Action)
    requires Enabled(true, s, a)
    ensures WatcherStep(a) ==> Work(After(s, a)) < Work(s)
    ensures !a.Change? ==> Work(After(s, a)) <= Work(s)
  {
  }

  /** While there is work the watcher can take a step, whatever the safety net does. */
  lemma {:induction false} NeverStuck(s: State) returns (a: Action)
    requires Work(s) > 0
    ensures WatcherStep(a) && Enabled(true, s, a)
  {
    match s.watcher
    case Idle => a := Receive;
    case Collecting(_) => a := StartRecords;
    case Recording(todo, _, _) => a := if todo == [] then ApplyBatch else Record(Lookup(s.fs, todo[0]));
    case Applied => a := SkipCompaction;
    case Compacting(_) => a := CompactionFails;
    case Swapped(_) => a := ClearOverlay;
    case Cleared(_, _) => a := ReloadNames;
    case Refreshed => a := ReleaseCompaction;
  }

  function WatcherSteps(actions: seq<Action>): nat {
    if actions == [] then 0
    else WatcherSteps(actions[..|actions| - 1]) + if WatcherStep(actions[|actions| - 1]) then 1 else 0
  }

  /** So as long as no file changes, the watcher takes no more steps than that, in any
      order of the two threads. */
  lemma {:induction false} StepsBounded(ss: seq<State>, actions: seq<Action>)
    requires Chain(true, ss, actions) && Calm(actions)
    ensures WatcherSteps(actions) + Work(ss[|actions|]) <= Work(ss[0])
  {
    if actions != [] {
      var n := |actions| - 1;
      ChainFront(ss, actions);
      StepsBounded(ss[..n + 1], actions[..n]);
      assert Leads(true, ss[n], actions[n], ss[n + 1]);
      WorkShrinks(ss[n], actions[n]);
    }
  }

  lemma {:induction false} ChainFront(ss: seq<State>, actions: seq<Action>)
    requires Chain(true, ss, actions) && Calm(actions) && actions != []
    ensures var n := |actions| - 1; Chain(true, ss[..n + 1], actions[..n]) && Calm(actions[..n])
  {
    var n := |actions| - 1;
    forall i | 0 <= i < n ensures Leads(true, ss[..n + 1][i], actions[..n][i], ss[..n + 1][i + 1]) {
      assert Leads(true, ss[i], actions[i], ss[i + 1]);
    }
  }

  /** When its work is done, no event is pending and the names can be asked for. */
  lemma {:induction false} DoneIsQuiet(s: State)
    requires Work(s) == 0
    ensures forall p :: !Pending(s, p) && NamesReady(s, p)
  {
  }

  lemma {:induction false} WorksOff(s: State) returns (t: State)
    ensures Reaches(s, t) && Work(t) == 0 && t.fs == s.fs
    decreases Work(s)
  {
    if Work(s) == 0 {
      t := s;
      Stay(s);
    } else {
      var a := NeverStuck(s);
      WorkShrinks(s, a);
      t := WorksOff(After(s, a));
      StepThen(s, a, After(s, a), t);
    }
  }

  lemma {:induction false} RunOn(ss: seq<State>, actions: seq<Action>, more: seq<State>, steps: seq<Action>)
    requires Run(true, ss, actions) && Chain(true, more, steps) && more[0] == ss[|ss| - 1]
    ensures Run(true, ss + more[1..], actions + steps)
  {
    forall i | 0 <= i < |actions| ensures Leads(true, ss[i], actions[i], ss[i + 1]) { }
    JoinChains(true, ss, actions, more, steps);
    ChainRuns(true, ss + more[1..], actions + steps);
  }

  /** A state in which every plain query answers for the files as they are. */
  ghost predicate Exact(s: State) {
    forall qr: Query :: qr.Plain() ==> LayerScan(qr, s.names, s.cold, s.overlay) == ScanFiles(qr, s.fs)
  }

  lemma {:induction false} RestIsExact(ss: seq<State>, actions: seq<Action>)
    requires Run(true, ss, actions) && Work(ss[|ss| - 1]) == 0
    ensures Exact(ss[|ss| - 1])
  {
    var s := ss[|ss| - 1];
    DoneIsQuiet(s);
    forall qr: Query | qr.Plain() ensures LayerScan(qr, s.names, s.cold, s.overlay) == ScanFiles(qr, s.fs) {
      QuietIsExact(ss, actions, |ss| - 1, qr);
    }
  }

  /** Every run can come to rest, from whatever state, without a file changing, and every
      plain query then answers for the files as they are. */
  lemma {:induction false} ComesToRest(ss: seq<State>, actions: seq<Action>) returns (t: State)
    requires Run(true, ss, actions)
    ensures Reaches(ss[|ss| - 1], t) && t.fs == ss[|ss| - 1].fs && (forall p :: !Pending(t, p)) && Exact(t)
  {
    t := WorksOff(ss[|ss| - 1]);
    var more, steps :| Leading(more, steps, ss[|ss| - 1], t);
    RunOn(ss, actions, more, steps);
    RestIsExact(ss + more[1..], actions + steps);
    DoneIsQuiet(t);
  }
}
