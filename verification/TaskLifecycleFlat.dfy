/**
 A flat model of thread accounting: one table of live threads, and one record per process of what its next window will
 say. It has no task keys, no nested maps, no index and no counters of live threads; those it counts in the table.
 */
module TaskLifecycleFlat {
  import opened Text
  import opened ThreadWindow
  import opened TaskLifecycle
  import opened TaskLifecycleRuns
  import opened TaskLifecycleLive

  /** How many threads of a name were created and how many exited in the window. */
  datatype Tally = Tally(created: nat, exited: nat)

  datatype Proc = Proc(
    attribution: nat, process: Process, generation: Generation, retired: bool, windowStart: int,
    activeAtStart: nat, peak: nat, created: nat, exited: nat, overflow: nat,
    names: map<string, Tally>, gaps: set<Gap>, baseline: Baseline, complete: bool)

  type Procs = map<ProcessKey, Proc>

  datatype Flat = Flat(capacity: nat, threads: Table, procs: Procs)

  function Owned(threads: Table, k: ProcessKey): set<Locator> { set l | l in threads && threads[l].key == k }

  function OwnedAs(threads: Table, k: ProcessKey, name: string): set<Locator> {
    set l | l in threads && threads[l].key == k && threads[l].name == name
  }

  // ---------------------------------------------------------------- one process

  /** Nothing is known of a new process before its first whole minute, which is complete only if its start was seen. */
  function NewProc(attribution: nat, process: Process, generation: Generation, at: int): Proc {
    Proc(attribution, process, generation, false, at / WINDOW_NANOS * WINDOW_NANOS, 0, 0, 0, 0, 0, map[], {},
         if generation.startObserved then Observed else Unavailable, generation.startObserved)
  }

  /** A process's first window starts on a whole minute and holds the observation that began it. */
  lemma FirstWindow(attribution: nat, process: Process, generation: Generation, at: int)
    ensures var p := NewProc(attribution, process, generation, at);
            p.windowStart % (60 * SECOND) == 0 && p.windowStart <= at < p.windowStart + 60 * SECOND
  {}

  predicate Fits(names: map<string, Tally>, raw: string) { raw in names || |names| < 64 }

  /** The name a thread is counted under, given the names in use. */
  function NameIn(names: map<string, Tally>, raw: string): string { if Fits(names, raw) then raw else "other" }

  function TallyOf(names: map<string, Tally>, name: string): Tally { if name in names then names[name] else Tally(0, 0) }

  /** A thread takes a name: the name is in use from now on, and counted as overflow if there was no room for it. */
  function TakesName(p: Proc, raw: string): Proc {
    var name := NameIn(p.names, raw);
    p.(overflow := if Fits(p.names, raw) then p.overflow else p.overflow + 1, names := p.names[name := TallyOf(p.names, name)])
  }

  /** A thread starts under a name, and so many are live now. */
  function Begins(p: Proc, raw: string, live: nat): Proc {
    var name, q := NameIn(p.names, raw), TakesName(p, raw);
    var t := TallyOf(p.names, name);
    q.(created := p.created + 1, names := q.names[name := Tally(t.created + 1, t.exited)], peak := Max(p.peak, live))
  }

  function Ends(p: Proc, name: string): Proc {
    var t := TallyOf(p.names, name);
    p.(exited := p.exited + 1, names := p.names[name := Tally(t.created, t.exited + 1)])
  }

  /** An exit that was never seen leaves a gap, and the baseline is complete no longer. */
  function Misses(p: Proc): Proc { p.(gaps := p.gaps + {KernelLoss}, complete := false) }

  function Gapped(p: Proc, gap: Gap): Proc { p.(gaps := p.gaps + {gap}) }

  /** The process exits; whatever of it is still live has exited unseen. */
  function Retires(p: Proc, threads: Table, k: ProcessKey): Proc {
    var q := p.(retired := true, exited := p.exited + |Owned(threads, k)|,
                names := map n | n in p.names :: Tally(p.names[n].created, p.names[n].exited + |OwnedAs(threads, k, n)|));
    if Owned(threads, k) == {} then q else Misses(q)
  }

  predicate IsDue(p: Proc, now: int) { now >= p.windowStart + WINDOW_NANOS }

  /** The next window starts where this one ends, from the threads that are live, with nothing counted and no gap. */
  function NextWindow(p: Proc, live: nat): Proc {
    p.(windowStart := p.windowStart + WINDOW_NANOS, activeAtStart := live, peak := live, created := 0, exited := 0, overflow := 0,
       names := map n | n in p.names :: Tally(0, 0), gaps := {})
  }

  // ---------------------------------------------------------------- the whole

  function WithProc(f: Flat, k: ProcessKey, p: Proc): Flat { f.(procs := f.procs[k := p]) }

  function Forgotten(f: Flat, key: ProcessKey): Flat {
    f.(threads := Without(f.threads, key), procs := f.procs - {key})
  }

  /** A start that was observed, of a process with a generation of its own and a parent. */
  predicate Proper(start: ProcessStart) {
    && start.generation.startObserved && start.generation.number != 0 && start.generation.epoch != NIL
    && start.parentPid != 0 && start.parentTgid != 0 && ProperName(start.parentCommand)
  }

  function Started(f: Flat, at: int, attribution: nat, process: Process, start: ProcessStart): Flat {
    var d := Forgotten(f, KeyOf(process));
    if Proper(start) then WithProc(d, KeyOf(process), NewProc(attribution, process, start.generation, at)) else d
  }

  function Ensured(f: Flat, at: int, attribution: nat, process: Process, generation: Generation): Flat {
    var key := KeyOf(process);
    if key in f.procs && f.procs[key].generation == generation then f
    else
      var d := Forgotten(f, key);
      if |d.procs| >= d.capacity then d else WithProc(d, key, NewProc(attribution, process, generation, at))
  }

  /** The thread at `l` is taken for gone, its exit unseen. */
  function Lost(f: Flat, l: Locator): Flat {
    if l !in f.threads then f
    else
      var th, r := f.threads[l], f.(threads := f.threads - {l});
      if th.key in f.procs then WithProc(r, th.key, Misses(Ends(f.procs[th.key], th.name))) else r
  }

  /** A thread is recorded, or a gap when the table is full. */
  function Placed(f: Flat, key: ProcessKey, task: TaskStart): Flat
    requires key in f.procs
  {
    var p, l := f.procs[key], (key.tgid, task.tid);
    if |f.threads| >= f.capacity then WithProc(f, key, Gapped(p, StateCapacity))
    else
      var threads := f.threads[l := Thread(key, task.at, NameIn(p.names, task.name))];
      WithProc(f.(threads := threads), key, Begins(p, task.name, |Owned(threads, key)|))
  }

  predicate Stale(f: Flat, key: ProcessKey, task: TaskStart) {
    var l := (key.tgid, task.tid);
    l in f.threads && f.threads[l].startedAt >= task.at
  }

  function ThreadOn(f: Flat, key: ProcessKey, task: TaskStart): Flat
    requires key in f.procs
  {
    if Stale(f, key, task) then f else Placed(Lost(f, (key.tgid, task.tid)), key, task)
  }

  predicate Usable(comm: Option<string>) { comm.Some? && ValidName(comm.value) }

  /** The name a listed thread is known by. */
  function Raw(comm: Option<string>): string { if Usable(comm) then comm.value else "unknown" }

  /** One listed thread. */
  function SeededOne(f: Flat, key: ProcessKey, tid: nat, comm: Option<string>): (r: Flat)
    requires key in f.procs
    ensures key in r.procs
  {
    var p := f.procs[key];
    var q := if Usable(comm) then p else Gapped(p, SnapshotRace);
    WithProc(f.(threads := f.threads[(key.tgid, tid) := Thread(key, 0, NameIn(p.names, Raw(comm)))]), key, TakesName(q, Raw(comm)))
  }

  /** The listed threads, one by one, until the table is full. */
  function Seeded(f: Flat, key: ProcessKey, entries: seq<DirEntry>): (r: Flat)
    requires key in f.procs
    ensures key in r.procs
    decreases |entries|
  {
    if entries == [] then f
    else
      var p := f.procs[key];
      match entries[0]
      case Unusable => Seeded(WithProc(f, key, Gapped(p, SnapshotRace)), key, entries[1..])
      case Task(tid, comm) =>
        if tid == key.tgid then Seeded(f, key, entries[1..])
        else if |f.threads| >= f.capacity then WithProc(f, key, Gapped(p, SnapshotTruncated))
        else Seeded(SeededOne(f, key, tid, comm), key, entries[1..])
  }

  /** The first window starts from the threads found, and is complete if nothing was missed. */
  function Settled(f: Flat, key: ProcessKey): Flat
    requires key in f.procs
  {
    var p, live := f.procs[key], |Owned(f.threads, key)|;
    WithProc(f, key, p.(activeAtStart := live, peak := live, complete := p.gaps == {}))
  }

  function FromListing(
    f: Flat, at: int, attribution: nat, process: Process, generation: Generation, listing: Option<seq<DirEntry>>): Flat
  {
    var key := KeyOf(process);
    if key in f.procs || |f.procs| >= f.capacity then f
    else
      var p := NewProc(attribution, process, generation, at);
      match listing
      case None => Settled(WithProc(f, key, Gapped(p, SnapshotPermission).(baseline := Unavailable)), key)
      case Some(entries) => Settled(Seeded(WithProc(f, key, p.(baseline := Snapshot)), key, entries), key)
  }

  function Relabelled(f: Flat, l: Locator, seen: nat, raw: string): Flat {
    if l in f.threads && f.threads[l].key in f.procs && seen >= f.threads[l].startedAt then
      var th := f.threads[l];
      var p := f.procs[th.key];
      WithProc(f.(threads := f.threads[l := th.(name := NameIn(p.names, raw))]), th.key, TakesName(p, raw))
    else f
  }

  function ThreadOff(f: Flat, key: ProcessKey, tid: nat, seen: nat): Flat {
    var l := (key.tgid, tid);
    if l in f.threads && f.threads[l].key == key && key in f.procs && f.threads[l].startedAt <= seen
    then WithProc(f.(threads := f.threads - {l}), key, Ends(f.procs[key], f.threads[l].name)) else f
  }

  function ProcessOff(f: Flat, key: ProcessKey): Flat {
    if key in f.procs then WithProc(f.(threads := Without(f.threads, key)), key, Retires(f.procs[key], f.threads, key)) else f
  }

  function Flush(f: Flat, now: int): Flat {
    f.(procs := map k | k in f.procs && !(IsDue(f.procs[k], now) && f.procs[k].retired) ::
                  if IsDue(f.procs[k], now) then NextWindow(f.procs[k], |Owned(f.threads, k)|) else f.procs[k])
  }

  function FlatStep(f: Flat, op: Op): Flat {
    match op
    case ProcessStarted(at, a, p, start) => Started(f, at, a, p, start)
    case ThreadStarted(at, a, p, g, task) =>
      var e := Ensured(f, at, a, p, g);
      if KeyOf(p) in e.procs && !e.procs[KeyOf(p)].retired then ThreadOn(e, KeyOf(p), task) else e
    case Bootstrapped(at, a, p, g, listing) => FromListing(f, at, a, p, g, listing)
    case Renamed(l, seen, name) => Relabelled(f, l, seen, name)
    case ThreadExited(key, tid, seen) => ThreadOff(f, key, tid, seen)
    case ProcessExited(key) => ProcessOff(f, key)
    case FlushedAt(now) => Flush(f, now)
  }

  function FlatRun(f: Flat, ops: seq<Op>): Flat
    decreases |ops|
  {
    if ops == [] then f else FlatRun(FlatStep(f, ops[0]), ops[1..])
  }

  function FlatInit(capacity: nat): Flat { Flat(capacity, map[], map[]) }

  // ---------------------------------------------------------------- what a window says

  /** Every name in use is listed, with its tallies and the threads that bear it now. */
  ghost predicate NamesSay(list: seq<NameCount>, names: map<string, Tally>, threads: Table, k: ProcessKey) {
    && (forall n :: (exists c :: c in list && c.name == n) <==> n in names)
    && (forall c :: c in list ==>
          c.name in names && c == NameCount(c.name, names[c.name].created, names[c.name].exited, |OwnedAs(threads, k, c.name)|))
  }

  /** The window reports the process: its record, and the threads counted in the table. */
  ghost predicate Says(w: Window, f: Flat, k: ProcessKey) {
    k in f.procs &&
    var p := f.procs[k];
    && w.process == p.process && w.generation == p.generation
    && w.startedAt == p.windowStart && w.endedAt == p.windowStart + 60 * SECOND
    && w.created == p.created && w.exited == p.exited && w.overflow == p.overflow
    && w.activeAtStart == p.activeAtStart && w.activeAtEnd == |Owned(f.threads, k)| && w.peakActive == p.peak
    && w.baseline == p.baseline && (w.complete <==> p.complete && p.gaps == {})
    && (forall g :: g in w.gaps <==> g in p.gaps)
    && NamesSay(w.names, p.names, f.threads, k)
  }
}
