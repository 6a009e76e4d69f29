/**
 The thread lifecycle store as a value, and what each observation does to it. `TaskLifecycleStore.dfy` holds
 the object that updates its fields in place and is proved against these functions.
 */
module TaskLifecycle {
  import opened Text
  import opened Counting
  import opened ThreadWindow

  datatype ProcessKey = ProcessKey(cgroup: nat, tgid: nat)

  datatype TaskKey = TaskKey(tid: nat, generation: nat, startedAt: nat)

  datatype NameState = NameState(created: nat, exited: nat, active: nat)

  /** A locator is a (process id, thread id) pair; it does not name the cgroup. */
  type Locator = (nat, nat)

  type Index = map<Locator, (ProcessKey, TaskKey)>

  datatype ProcessState = ProcessState(
    attribution: nat, process: Process, generation: Generation,
    tasks: map<TaskKey, string>, names: map<string, NameState>,
    activeAtStart: nat, peakActive: nat, created: nat, exited: nat, overflow: nat,
    gaps: set<Gap>, windowStart: int, baseline: Baseline, complete: bool, retired: bool)

  datatype Store = Store(capacity: nat, states: map<ProcessKey, ProcessState>, index: Index, next: nat)

  datatype ProcessStart = ProcessStart(generation: Generation, parentPid: nat, parentTgid: nat, parentCommand: string) {
    predicate Valid() {
      generation.Valid() && generation.startObserved && parentPid != 0 && parentTgid != 0 && ValidName(parentCommand)
    }
  }

  datatype TaskStart = TaskStart(tid: nat, at: nat, name: string)

  /** One entry of a process's task directory: unusable, or a thread id with its trimmed `comm` text if readable. */
  datatype DirEntry = Unusable | Task(tid: nat, comm: Option<string>)

  /** The bucket for names beyond the bound. */
  const OTHER: string := "other"

  /** `saturating_sub`. */
  function SatSub(a: nat, b: nat): nat { if a <= b then 0 else a - b }

  function MinuteStart(at: int): int { at - at % WINDOW_NANOS }

  function KeyOf(p: Process): ProcessKey { ProcessKey(p.cgroup, p.tgid) }

  // ---------------------------------------------------------------- one process

  function NewState(attribution: nat, process: Process, generation: Generation, at: int): ProcessState {
    ProcessState(
      attribution, process, generation, map[], map[], 0, 0, 0, 0, 0, {}, MinuteStart(at),
      if generation.startObserved then Observed else Unavailable, generation.startObserved, false)
  }

  /** `bucket_name`: the name a task is counted under. */
  function Bucket(names: map<string, NameState>, raw: string): string {
    if raw in names || |names| < MAX_THREAD_NAMES then raw else OTHER
  }

  /** The overflow counter once `bucket_name` has run. */
  function OverflowAfter(p: ProcessState, raw: string): nat {
    if raw in p.names || |p.names| < MAX_THREAD_NAMES then p.overflow else p.overflow + 1
  }

  /** `entry(name).or_default()`. */
  function EntryOf(names: map<string, NameState>, n: string): NameState {
    if n in names then names[n] else NameState(0, 0, 0)
  }

  function CountCreated(e: NameState): NameState { NameState(e.created + 1, e.exited, e.active + 1) }
  function CountExited(e: NameState): NameState { NameState(e.created, e.exited + 1, SatSub(e.active, 1)) }
  function CountJoined(e: NameState): NameState { NameState(e.created, e.exited, e.active + 1) }
  function CountLeft(e: NameState): NameState { NameState(e.created, e.exited, SatSub(e.active, 1)) }

  function AddTask(p: ProcessState, t: TaskKey, raw: string): ProcessState {
    var name := Bucket(p.names, raw);
    p.(overflow := OverflowAfter(p, raw),
       tasks := p.tasks[t := name],
       created := p.created + 1,
       names := p.names[name := CountCreated(EntryOf(p.names, name))],
       peakActive := Max(p.peakActive, |p.tasks[t := name]|))
  }

  /** Takes one task out and counts it as exited. */
  function DropTask(p: ProcessState, t: TaskKey): ProcessState
    requires t in p.tasks
  {
    var name := p.tasks[t];
    p.(tasks := p.tasks - {t},
       names := if name in p.names then p.names[name := CountExited(p.names[name])] else p.names,
       exited := p.exited + 1)
  }

  /** A task whose exit was never seen. */
  function LoseTask(p: ProcessState, t: TaskKey): ProcessState
    requires t in p.tasks
  {
    DropTask(p, t).(gaps := p.gaps + {KernelLoss}, complete := false)
  }

  /** The name counters once a task has moved from one name to another. */
  function NamesAfterRename(names: map<string, NameState>, was: string, name: string): map<string, NameState> {
    var left := if was in names then names[was := CountLeft(names[was])] else names;
    left[name := CountJoined(EntryOf(left, name))]
  }

  function RenameTask(p: ProcessState, t: TaskKey, raw: string): ProcessState {
    var name := Bucket(p.names, raw);
    var q := p.(overflow := OverflowAfter(p, raw));
    if t !in p.tasks || p.tasks[t] == name then q
    else q.(names := NamesAfterRename(p.names, p.tasks[t], name), tasks := p.tasks[t := name])
  }

  /** A task found in the snapshot: it is active but not counted as created. */
  function AdoptTask(p: ProcessState, t: TaskKey, raw: string): ProcessState {
    var name := Bucket(p.names, raw);
    p.(overflow := OverflowAfter(p, raw),
       tasks := p.tasks[t := name],
       names := p.names[name := CountJoined(EntryOf(p.names, name))])
  }

  /** The name counters once all of `tasks` have exited. */
  function NamesAfterExit(names: map<string, NameState>, tasks: map<TaskKey, string>): map<string, NameState> {
    map n | n in names ::
      var c := |KeysOf(tasks, n)|; NameState(names[n].created, names[n].exited + c, SatSub(names[n].active, c))
  }

  /** `observe_process_exit` on the state: every remaining task exits unobserved. */
  function Retire(p: ProcessState): ProcessState {
    p.(retired := true,
       tasks := map[],
       names := NamesAfterExit(p.names, p.tasks),
       exited := p.exited + |p.tasks|,
       gaps := if p.tasks == map[] then p.gaps else p.gaps + {KernelLoss},
       complete := p.complete && p.tasks == map[])
  }

  predicate Due(p: ProcessState, now: int) { now >= p.windowStart + WINDOW_NANOS }

  function ResetWindow(p: ProcessState, start: int): ProcessState {
    p.(windowStart := start, activeAtStart := |p.tasks|, peakActive := |p.tasks|,
       created := 0, exited := 0, overflow := 0, gaps := {},
       names := map n | n in p.names :: NameState(0, 0, p.names[n].active))
  }

  function Flushed(p: ProcessState): ProcessState { ResetWindow(p, p.windowStart + WINDOW_NANOS) }

  /** `names` lists the counters of `m`, each name once, in some order. */
  ghost predicate Lists(names: seq<NameCount>, m: map<string, NameState>) {
    && DistinctNames(names)
    && (forall c :: c in names ==> c.name in m && m[c.name] == NameState(c.created, c.exited, c.active))
    && (forall n :: n in m ==> NameCount(n, m[n].created, m[n].exited, m[n].active) in names)
  }

  ghost predicate ListsGaps(gaps: seq<Gap>, s: set<Gap>) {
    Sorting.Distinct(gaps) && forall g :: g in gaps <==> g in s
  }

  /** The window `flush` reports, for the order in which the maps happen to be walked. */
  function WindowOf(p: ProcessState, id: Uuid, names: seq<NameCount>, gaps: seq<Gap>): Window {
    Window(id, p.process, p.generation, p.windowStart, p.windowStart + WINDOW_NANOS,
           p.created, p.exited, p.activeAtStart, |p.tasks|, p.peakActive, names,
           p.baseline, p.complete && p.gaps == {}, p.overflow, gaps)
  }

  // ---------------------------------------------------------------- the store

  function Init(capacity: nat): Store { Store(capacity, map[], map[], 1) }

  function Locators(tgid: nat, tasks: map<TaskKey, string>): set<Locator> {
    set t | t in tasks :: (tgid, t.tid)
  }

  function RemoveState(s: Store, key: ProcessKey): Store {
    if key !in s.states then s
    else s.(states := s.states - {key}, index := s.index - Locators(key.tgid, s.states[key].tasks))
  }

  function ObserveProcessStart(s: Store, at: int, attribution: nat, process: Process, start: ProcessStart): Store {
    var key := KeyOf(process);
    var r := RemoveState(s, key);
    if start.Valid() then r.(states := r.states[key := NewState(attribution, process, start.generation, at)]) else r
  }

  /** `ensure_state`: the store, and whether the process can take tasks. */
  function EnsureState(s: Store, at: int, attribution: nat, process: Process, generation: Generation): (r: (Store, bool))
    ensures r.1 ==> KeyOf(process) in r.0.states && !r.0.states[KeyOf(process)].retired
  {
    var key := KeyOf(process);
    if key in s.states && s.states[key].generation == generation then (s, !s.states[key].retired)
    else
      var r := RemoveState(s, key);
      if |r.states| >= r.capacity then (r, false)
      else (r.(states := r.states[key := NewState(attribution, process, generation, at)]), true)
  }

  function RetireReused(s: Store, l: Locator): (r: Store)
    ensures r.states.Keys == s.states.Keys && l !in r.index
    ensures forall k :: k in s.states ==> r.states[k].retired == s.states[k].retired
  {
    if l !in s.index then s
    else
      var (key, t) := s.index[l];
      var r := s.(index := s.index - {l});
      if key !in s.states || t !in s.states[key].tasks then r
      else r.(states := s.states[key := LoseTask(s.states[key], t)])
  }

  /** Records a new task of a process that can take it, or a gap when the store is full. */
  function PlaceTask(s: Store, key: ProcessKey, task: TaskStart): Store
    requires key in s.states
  {
    if |s.index| >= s.capacity then
      s.(states := s.states[key := s.states[key].(gaps := s.states[key].gaps + {StateCapacity})])
    else
      var t := TaskKey(task.tid, s.next, task.at);
      s.(states := s.states[key := AddTask(s.states[key], t, task.name)],
         index := s.index[(key.tgid, task.tid) := (key, t)],
         next := s.next + 1)
  }

  /** A start no later than the indexed task's own is stale; otherwise the indexed task was reused. */
  function StartTask(s: Store, key: ProcessKey, task: TaskStart): Store
    requires key in s.states
  {
    var l := (key.tgid, task.tid);
    if l in s.index && s.index[l].1.startedAt >= task.at then s else PlaceTask(RetireReused(s, l), key, task)
  }

  function ObserveThreadStart(
    s: Store, at: int, attribution: nat, process: Process, generation: Generation, task: TaskStart): Store
  {
    var e := EnsureState(s, at, attribution, process, generation);
    if e.1 then StartTask(e.0, KeyOf(process), task) else e.0
  }

  datatype Seeding = Seeding(state: ProcessState, index: Index, next: nat)

  /** One directory entry that is not skipped. */
  function SeedOne(key: ProcessKey, d: Seeding, tid: nat, comm: Option<string>): Seeding {
    var usable := comm.Some? && ValidName(comm.value);
    var p := if usable then d.state else d.state.(gaps := d.state.gaps + {SnapshotRace});
    var t := TaskKey(tid, d.next, 0);
    Seeding(AdoptTask(p, t, if usable then comm.value else "unknown"), d.index[(key.tgid, tid) := (key, t)], d.next + 1)
  }

  /** `seed_snapshot`, entry by entry; it stops at the first entry it has no room for. */
  function Seed(capacity: nat, key: ProcessKey, d: Seeding, entries: seq<DirEntry>): Seeding
    decreases |entries|
  {
    if entries == [] then d
    else match entries[0]
      case Unusable =>
        Seed(capacity, key, d.(state := d.state.(gaps := d.state.gaps + {SnapshotRace})), entries[1..])
      case Task(tid, comm) =>
        if tid == key.tgid then Seed(capacity, key, d, entries[1..])
        else if |d.index| >= capacity then d.(state := d.state.(gaps := d.state.gaps + {SnapshotTruncated}))
        else Seed(capacity, key, SeedOne(key, d, tid, comm), entries[1..])
  }

  function SnapshotState(attribution: nat, process: Process, generation: Generation, at: int): ProcessState {
    NewState(attribution, process, generation, at).(baseline := Snapshot)
  }

  function Finish(p: ProcessState): ProcessState {
    p.(activeAtStart := |p.tasks|, peakActive := |p.tasks|, complete := p.gaps == {})
  }

  /** `listing` is the directory of threads, or nothing when it cannot be read. */
  function BootstrapProcess(
    s: Store, at: int, attribution: nat, process: Process, generation: Generation,
    listing: Option<seq<DirEntry>>): Store
  {
    var key := KeyOf(process);
    if key in s.states || |s.states| >= s.capacity then s
    else
      var p := SnapshotState(attribution, process, generation, at);
      match listing
      case None =>
        s.(states := s.states[key := Finish(p.(baseline := Unavailable, gaps := {SnapshotPermission}))])
      case Some(entries) =>
        var d := Seed(s.capacity, key, Seeding(p, s.index, s.next), entries);
        s.(states := s.states[key := Finish(d.state)], index := d.index, next := d.next)
  }

  function ObserveRename(s: Store, l: Locator, at: nat, name: string): Store {
    if l !in s.index then s
    else
      var (key, t) := s.index[l];
      if at < t.startedAt || key !in s.states then s
      else s.(states := s.states[key := RenameTask(s.states[key], t, name)])
  }

  function ObserveThreadExit(s: Store, key: ProcessKey, tid: nat, at: nat): Store {
    var l := (key.tgid, tid);
    if l !in s.index || s.index[l].0 != key || at < s.index[l].1.startedAt || key !in s.states then s
    else
      var t := s.index[l].1;
      var p := s.states[key];
      if t !in p.tasks then s.(states := s.states[key := p.(gaps := p.gaps + {StateCapacity})])
      else s.(states := s.states[key := DropTask(p, t)], index := s.index - {l})
  }

  function ObserveProcessExit(s: Store, key: ProcessKey): Store {
    if key !in s.states then s
    else s.(states := s.states[key := Retire(s.states[key])],
            index := s.index - Locators(key.tgid, s.states[key].tasks))
  }

  /** `flush_due`: every due window is reported and reset, and reported retired processes are forgotten. */
  function FlushDue(s: Store, now: int): Store {
    s.(states := map k | k in s.states && !(Due(s.states[k], now) && s.states[k].retired) ::
                   if Due(s.states[k], now) then Flushed(s.states[k]) else s.states[k])
  }
}
