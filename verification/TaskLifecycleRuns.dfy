/** Whole runs of the thread lifecycle store: what every reachable state keeps and every reported window satisfies. */
module TaskLifecycleRuns {
  import opened Text
  import opened Counting
  import opened ThreadWindow
  import opened ThreadWire
  import opened TaskLifecycle
  import opened TaskLifecycleInvariant
  import opened TaskLifecycleBootstrap
  import opened TaskLifecycleCounters

  datatype Op =
    | ProcessStarted(at: int, attribution: nat, process: Process, start: ProcessStart)
    | ThreadStarted(at: int, attribution: nat, process: Process, generation: Generation, task: TaskStart)
    | Bootstrapped(at: int, attribution: nat, process: Process, generation: Generation, listing: Option<seq<DirEntry>>)
    | Renamed(locator: Locator, seen: nat, name: string)
    | ThreadExited(key: ProcessKey, tid: nat, seen: nat)
    | ProcessExited(key: ProcessKey)
    | FlushedAt(now: int)

  function Apply(s: Store, op: Op): Store {
    match op
    case ProcessStarted(at, a, p, start) => ObserveProcessStart(s, at, a, p, start)
    case ThreadStarted(at, a, p, g, task) => ObserveThreadStart(s, at, a, p, g, task)
    case Bootstrapped(at, a, p, g, listing) => BootstrapProcess(s, at, a, p, g, listing)
    case Renamed(l, seen, name) => ObserveRename(s, l, seen, name)
    case ThreadExited(key, tid, seen) => ObserveThreadExit(s, key, tid, seen)
    case ProcessExited(key) => ObserveProcessExit(s, key)
    case FlushedAt(now) => FlushDue(s, now)
  }

  function Run(s: Store, ops: seq<Op>): Store
    decreases |ops|
  {
    if ops == [] then s else Run(Apply(s, ops[0]), ops[1..])
  }

  predicate Safe(s: Store, op: Op) {
    op.Bootstrapped? ==> BootstrapSafe(s, op.process, op.listing)
  }

  /** Every bootstrap of the run is safe when it happens. */
  predicate SafeRun(s: Store, ops: seq<Op>)
    decreases |ops|
  {
    ops == [] || (Safe(s, ops[0]) && SafeRun(Apply(s, ops[0]), ops[1..]))
  }

  lemma StepExact(s: Store, op: Op)
    requires Inv(s)
    ensures Inv(Apply(s, op)) <==> Safe(s, op)
  {
    hide Inv;
    match op
    case ProcessStarted(at, a, p, start) => ProcessStartInv(s, at, a, p, start);
    case ThreadStarted(at, a, p, g, task) => ThreadStartInv(s, at, a, p, g, task);
    case Bootstrapped(at, a, p, g, listing) => BootstrapExact(s, at, a, p, g, listing);
    case Renamed(l, seen, name) => RenameInv(s, l, seen, name);
    case ThreadExited(key, tid, seen) => ThreadExitInv(s, key, tid, seen);
    case ProcessExited(key) => ProcessExitInv(s, key);
    case FlushedAt(now) => FlushDueInv(s, now);
  }

  /** The invariant holds after every step of a run exactly when every bootstrap in it was safe. */
  lemma {:induction false} RunExact(s: Store, ops: seq<Op>)
    requires Inv(s)
    ensures SafeRun(s, ops) <==> forall i :: 0 <= i <= |ops| ==> Inv(Run(s, ops[..i]))
    decreases |ops|
  {
    hide Inv;
    hide Apply;
    if ops == [] {
      assert ops[..0] == [];
    } else {
      var t := Apply(s, ops[0]);
      StepExact(s, ops[0]);
      forall i | 1 <= i <= |ops| ensures Run(s, ops[..i]) == Run(t, ops[1..][..i - 1]) {
        assert ops[..i][1..] == ops[1..][..i - 1];
      }
      assert Run(s, ops[..0]) == s;
      assert Run(s, ops[..1]) == t by { assert ops[1..][..0] == []; }
      if Safe(s, ops[0]) {
        RunExact(t, ops[1..]);
        forall i | 0 <= i <= |ops[1..]| ensures Run(t, ops[1..][..i]) == Run(s, ops[..i + 1]) {}
      }
    }
  }

  // ---------------------------------------------------------------- the counters, over every run

  lemma StepCounted(s: Store, op: Op)
    requires Counted(s)
    ensures Counted(Apply(s, op))
  {
    hide Counted;
    match op
    case ProcessStarted(at, a, p, start) => ProcessStartCounted(s, at, a, p, start);
    case ThreadStarted(at, a, p, g, task) => ThreadStartCounted(s, at, a, p, g, task);
    case Bootstrapped(at, a, p, g, listing) => BootstrapCounted(s, at, a, p, g, listing);
    case Renamed(l, seen, name) => RenameCounted(s, l, seen, name);
    case ThreadExited(key, tid, seen) => ThreadExitCounted(s, key, tid, seen);
    case ProcessExited(key) => ProcessExitCounted(s, key);
    case FlushedAt(now) => FlushDueCounted(s, now);
  }

  lemma {:induction false} RunCounted(s: Store, ops: seq<Op>)
    requires Counted(s)
    ensures Counted(Run(s, ops))
    decreases |ops|
  {
    hide Counted;
    hide Apply;
    if ops != [] {
      StepCounted(s, ops[0]);
      RunCounted(Apply(s, ops[0]), ops[1..]);
    }
  }

  /** Every reachable state has exact counters; after a safe run its index is exact too. */
  lemma {:induction false} ReachableInv(capacity: nat, ops: seq<Op>)
    ensures Counted(Run(Init(capacity), ops))
    ensures SafeRun(Init(capacity), ops) ==> Inv(Run(Init(capacity), ops))
  {
    InitInv(capacity);
    RunCounted(Init(capacity), ops);
    RunExact(Init(capacity), ops);
    assert ops[..|ops|] == ops;
  }

  /**
   In every run whatever, every process balances: what was live at the window's start and what was created is what
   exited and what is live, the peak lies between, every name counts exactly its tasks, the names add up to the
   process, and no saturating subtraction ever has less to subtract from than it takes away.
   */
  lemma {:induction false} RunBalanced(capacity: nat, ops: seq<Op>, k: ProcessKey)
    requires k in Run(Init(capacity), ops).states
    ensures var p := Run(Init(capacity), ops).states[k];
            && p.activeAtStart + p.created - p.exited == |p.tasks|
            && Max(p.activeAtStart, |p.tasks|) <= p.peakActive <= p.activeAtStart + p.created
            && (forall t :: t in p.tasks ==> p.tasks[t] in p.names && SatSub(p.names[p.tasks[t]].active, 1) + 1 == p.names[p.tasks[t]].active)
            && (forall n :: n in p.names ==>
                  p.names[n].active == |KeysOf(p.tasks, n)| && SatSub(p.names[n].active, |KeysOf(p.tasks, n)|) == 0)
            && Totals(p.names, p.created, p.exited, |p.tasks|)
  {
    ReachableInv(capacity, ops);
    var p := Run(Init(capacity), ops).states[k];
    assert Good(k, p, Run(Init(capacity), ops).next);
    forall t | t in p.tasks ensures p.tasks[t] in p.names && p.names[p.tasks[t]].active >= 1 {
      ActivePositive(p.tasks, p.names, t);
    }
  }

  // ---------------------------------------------------------------- progress inside a window

  /** The state carries on: it was not replaced by a start, a bootstrap or a new generation. */
  predicate CarriesOn(s: Store, op: Op, k: ProcessKey) {
    && k in s.states && k in Apply(s, op).states && !op.FlushedAt? && !(op.ProcessStarted? && KeyOf(op.process) == k)
    && (op.ThreadStarted? && KeyOf(op.process) == k ==> s.states[k].generation == op.generation)
  }

  /** `q` continues the window of `p` with `c` more threads created. */
  ghost predicate Continues(p: ProcessState, q: ProcessState, c: int) {
    && q.windowStart == p.windowStart && q.activeAtStart == p.activeAtStart && q.created == p.created + c
    && q.exited >= p.exited && q.gaps >= p.gaps && q.overflow >= p.overflow
    && q.peakActive == Max(p.peakActive, |q.tasks|)
    && (q.complete ==> p.complete)
  }

  lemma DropContinues(p: ProcessState, t: TaskKey)
    requires StateInv(p) && t in p.tasks
    ensures Continues(p, DropTask(p, t), 0) && Continues(p, LoseTask(p, t), 0)
  {
    assert |p.tasks - {t}| < |p.tasks| by { assert (p.tasks - {t}).Keys == p.tasks.Keys - {t}; }
  }

  lemma RenameContinues(p: ProcessState, t: TaskKey, raw: string)
    requires StateInv(p) && t in p.tasks
    ensures Continues(p, RenameTask(p, t, raw), 0)
  {
    RenameTaskInv(p, t, raw);
    assert |RenameTask(p, t, raw).tasks| == |RenameTask(p, t, raw).tasks.Keys| == |p.tasks.Keys| == |p.tasks|;
  }

  lemma ContinuesTransitive(p: ProcessState, q: ProcessState, r: ProcessState, c: int)
    requires Continues(p, q, 0) && Continues(q, r, c) && |q.tasks| <= p.peakActive
    ensures Continues(p, r, c)
  {}

  /** A process that does not change, or only gains a gap or an overflow, continues. */
  lemma SameContinues(p: ProcessState, q: ProcessState)
    requires Balanced(p) && q.gaps >= p.gaps && q.overflow >= p.overflow
    requires q == p.(gaps := q.gaps, overflow := q.overflow)
    ensures Continues(p, q, 0)
  {}

  lemma RetireReusedContinues(s: Store, l: Locator, k: ProcessKey)
    requires k in s.states && StateInv(s.states[k])
    ensures var q := RetireReused(s, l).states[k];
            Continues(s.states[k], q, 0) && |q.tasks| <= s.states[k].peakActive
  {
    hide NamesCount;
    if l in s.index && s.index[l].0 == k && s.index[l].1 in s.states[k].tasks {
      DropContinues(s.states[k], s.index[l].1);
      assert |LoseTask(s.states[k], s.index[l].1).tasks| <= s.states[k].peakActive;
    }
  }

  lemma PlaceContinues(s: Store, key: ProcessKey, task: TaskStart, k: ProcessKey)
    requires key in s.states && k in s.states && Balanced(s.states[k])
    ensures var r := PlaceTask(s, key, task);
            k in r.states && Continues(s.states[k], r.states[k], if k == key then r.next - s.next else 0)
  {}

  lemma StartContinues(s: Store, key: ProcessKey, task: TaskStart, k: ProcessKey)
    requires Counted(s) && key in s.states && k in s.states
    ensures var r := StartTask(s, key, task);
            k in r.states && Continues(s.states[k], r.states[k], if k == key then r.next - s.next else 0)
  {
    hide Counted;
    hide NamesCount;
    hide PlaceTask;
    CountedState(s, k);
    var l := (key.tgid, task.tid);
    var q := RetireReused(s, l);
    RetireReusedCounted(s, l);
    CountedState(q, k);
    RetireReusedContinues(s, l, k);
    PlaceContinues(q, key, task, k);
    var r := PlaceTask(q, key, task);
    assert q.next == s.next;
    ContinuesTransitive(s.states[k], q.states[k], r.states[k], if k == key then r.next - s.next else 0);
  }

  /**
   Inside a window, after any history, the peak is the running maximum of the number of live threads, threads are
   counted as created only when a start of that process records one, and exits and gaps only accumulate.
   */
  lemma WindowProgress(s: Store, op: Op, k: ProcessKey)
    requires Counted(s) && CarriesOn(s, op, k)
    ensures var r := Apply(s, op);
            Continues(s.states[k], r.states[k], if op.ThreadStarted? && KeyOf(op.process) == k then r.next - s.next else 0)
  {
    hide Counted;
    hide Continues;
    hide StateInv;
    hide ObserveThreadStart;
    hide ObserveRename;
    hide ObserveThreadExit;
    CountedState(s, k);
    match op
    case ThreadStarted(at, a, p, g, task) => ThreadStartContinues(s, at, a, p, g, task, k);
    case Renamed(l, seen, name) => RenamedContinues(s, l, seen, name, k);
    case ThreadExited(key, tid, seen) => ThreadExitedContinues(s, key, tid, seen, k);
    case _ => OthersContinue(s, op, k);
  }

  lemma OthersContinue(s: Store, op: Op, k: ProcessKey)
    requires CarriesOn(s, op, k) && StateInv(s.states[k]) && !op.ThreadStarted? && !op.Renamed? && !op.ThreadExited?
    ensures Continues(s.states[k], Apply(s, op).states[k], 0)
  {
    hide ObserveThreadStart;
    hide ObserveRename;
    hide ObserveThreadExit;
    hide NamesCount;
  }

  lemma RenamedContinues(s: Store, l: Locator, seen: nat, name: string, k: ProcessKey)
    requires k in s.states && StateInv(s.states[k])
    ensures var r := ObserveRename(s, l, seen, name);
            k in r.states && Continues(s.states[k], r.states[k], 0)
  {
    hide NamesCount;
    if l in s.index && s.index[l].0 == k && s.index[l].1 in s.states[k].tasks {
      RenameContinues(s.states[k], s.index[l].1, name);
    } else {
      SameContinues(s.states[k], ObserveRename(s, l, seen, name).states[k]);
    }
  }

  lemma ThreadExitedContinues(s: Store, key: ProcessKey, tid: nat, seen: nat, k: ProcessKey)
    requires k in s.states && StateInv(s.states[k])
    ensures var r := ObserveThreadExit(s, key, tid, seen);
            k in r.states && Continues(s.states[k], r.states[k], 0)
  {
    hide NamesCount;
    var l := (key.tgid, tid);
    if l in s.index && s.index[l].0 == k && s.index[l].1 in s.states[k].tasks {
      DropContinues(s.states[k], s.index[l].1);
    } else {
      SameContinues(s.states[k], ObserveThreadExit(s, key, tid, seen).states[k]);
    }
  }

  lemma ThreadStartContinues(s: Store, at: int, a: nat, p: Process, g: Generation, task: TaskStart, k: ProcessKey)
    requires Counted(s) && CarriesOn(s, ThreadStarted(at, a, p, g, task), k)
    ensures var r := ObserveThreadStart(s, at, a, p, g, task);
            k in r.states && Continues(s.states[k], r.states[k], if KeyOf(p) == k then r.next - s.next else 0)
  {
    hide Counted;
    hide StartTask;
    var key, e := KeyOf(p), EnsureState(s, at, a, p, g);
    EnsureStateCounted(s, at, a, p, g);
    CountedState(s, k);
    assert k in e.0.states && e.0.next == s.next && e.0.states[k] == s.states[k];
    if e.1 {
      StartContinues(e.0, key, task, k);
    }
  }

  lemma CountedState(s: Store, k: ProcessKey)
    requires Counted(s) && k in s.states
    ensures StateInv(s.states[k])
  {
    assert Good(k, s.states[k], s.next);
  }

  // ---------------------------------------------------------------- how many tasks there are

  ghost function AllTasks(s: Store): set<(ProcessKey, TaskKey)> {
    set k, t | k in s.states && t in s.states[k].tasks :: (k, t)
  }

  /** The index lists every task of every process once, so the store never holds more tasks than its capacity. */
  lemma TaskBound(s: Store)
    requires Inv(s)
    ensures s.index.Values == AllTasks(s) && |AllTasks(s)| == |s.index| <= s.capacity
  {
    forall v | v in AllTasks(s) ensures v in s.index.Values {
      assert s.index[(v.0.tgid, v.1.tid)] == v;
    }
    forall v | v in s.index.Values ensures v in AllTasks(s) {
      var l :| l in s.index && s.index[l] == v;
    }
    assert Injective(s.index) by {
      forall a, b | a in s.index && b in s.index && s.index[a] == s.index[b] ensures a == b {
        IndexedAt(s.states, s.index, a);
        IndexedAt(s.states, s.index, b);
      }
    }
    InjectiveSize(s.index);
  }

  // ---------------------------------------------------------------- reported windows

  lemma {:induction false} ListLength(names: seq<NameCount>, m: map<string, NameState>)
    requires Lists(names, m)
    ensures |names| == |m|
    decreases |names|
  {
    if names == [] {
      assert m.Keys == {};
      assert m == map[];
    } else {
      var n := names[0].name;
      ListRest(names, m);
      ListLength(names[1..], m - {n});
      assert names[0] in names;
      assert (m - {n}).Keys == m.Keys - {n};
      assert |m| == |m.Keys| && |m - {n}| == |(m - {n}).Keys|;
    }
  }

  lemma {:induction false} ListTotal(names: seq<NameCount>, m: map<string, NameState>, f: NameCount -> nat, g: NameState -> nat)
    requires Lists(names, m)
    requires forall c: NameCount :: f(c) == g(NameState(c.created, c.exited, c.active))
    ensures Total(names, f) == Sum(m, g)
    decreases |names|
  {
    if names == [] {
      assert m.Keys == {};
      assert m == map[];
    } else {
      assert names[0] in names;
      ListRest(names, m);
      hide Lists;
      ListTotal(names[1..], m - {names[0].name}, f, g);
      SumRemove(m, g, names[0].name);
    }
  }

  lemma {:induction false} ListTotals(names: seq<NameCount>, m: map<string, NameState>)
    requires Lists(names, m)
    ensures |names| == |m|
    ensures Total(names, Created) == Sum(m, CreatedOf)
    ensures Total(names, Exited) == Sum(m, ExitedOf)
    ensures Total(names, Active) == Sum(m, ActiveOf)
  {
    ListLength(names, m);
    ListTotal(names, m, Created, CreatedOf);
    ListTotal(names, m, Exited, ExitedOf);
    ListTotal(names, m, Active, ActiveOf);
  }

  lemma ListRest(names: seq<NameCount>, m: map<string, NameState>)
    requires Lists(names, m) && names != []
    ensures Lists(names[1..], m - {names[0].name})
  {
    var rest := names[1..];
    assert forall i :: 0 <= i < |rest| ==> rest[i] == names[i + 1];
    forall c | c in rest ensures c in names && c.name != names[0].name {
      var i :| 0 <= i < |rest| && rest[i] == c;
      assert names[i + 1] == c;
    }
    forall n | n in m && n != names[0].name
      ensures NameCount(n, m[n].created, m[n].exited, m[n].active) in rest
    {
      var c := NameCount(n, m[n].created, m[n].exited, m[n].active);
      var i :| 0 <= i < |names| && names[i] == c;
      assert names[i] == rest[i - 1];
    }
  }

  /** The identity and the names a window carries are acceptable. */
  ghost predicate Nameable(p: ProcessState) {
    p.generation.Valid() && p.process.Leader() && forall n :: n in p.names ==> ValidName(n)
  }

  ghost predicate Reports(w: Window, p: ProcessState) {
    w == WindowOf(p, w.id, w.names, w.gaps) && w.id != NIL && Lists(w.names, p.names) && ListsGaps(w.gaps, p.gaps)
  }

  lemma ReportCounts(p: ProcessState, w: Window)
    requires StateInv(p) && Reports(w, p)
    ensures Total(w.names, Created) == w.created && Total(w.names, Exited) == w.exited
    ensures Total(w.names, Active) == w.activeAtEnd && |w.names| <= MAX_THREAD_NAMES + 1
  {
    ListTotals(w.names, p.names);
  }

  /**
   Whatever order the maps are walked in, the window of a well-kept process is valid exactly when its
   process is a leader, its generation is valid and every thread name is: the counters never fail.
   */
  lemma ReportExact(p: ProcessState, w: Window)
    requires StateInv(p) && Reports(w, p) && p.activeAtStart + p.created <= U64_MAX
    ensures Validate(w) == Ok <==> Nameable(p)
  {
    ReportCounts(p, w);
    ValidateExact(w);
    assert w.gaps == [] <==> p.gaps == {} by {
      if w.gaps != [] {
        assert w.gaps[0] in p.gaps;
      }
    }
    assert ValidNames(w.names) <==> forall n :: n in p.names ==> ValidName(n) by {
      if ValidNames(w.names) {
        forall n | n in p.names ensures ValidName(n) {
          assert NameCount(n, p.names[n].created, p.names[n].exited, p.names[n].active) in w.names;
        }
      }
    }
  }

  // ---------------------------------------------------------------- runs with acceptable inputs

  lemma {:induction false} AsciiLength(s: string)
    requires forall c :: c in s ==> c as int < 0x80
    ensures |Utf8(s)| == |s|
  {
    if s != [] {
      assert s[0] in s && forall c :: c in s[1..] ==> c in s;
      AsciiLength(s[1..]);
    }
  }

  lemma FixedNamesValid()
    ensures ValidName(OTHER) && ValidName("unknown")
  {
    AsciiLength(OTHER);
    AsciiLength("unknown");
  }

  /** Every identity and every thread name handed in is acceptable. */
  predicate WellFormed(op: Op) {
    match op
    case ProcessStarted(_, _, p, _) => p.Leader()
    case ThreadStarted(_, _, p, g, task) => p.Leader() && g.Valid() && ValidName(task.name)
    case Bootstrapped(_, _, p, g, _) => p.Leader() && g.Valid()
    case Renamed(_, _, name) => ValidName(name)
    case _ => true
  }

  ghost predicate AllNameable(states: map<ProcessKey, ProcessState>) {
    forall k :: k in states ==> Nameable(states[k])
  }

  lemma {:induction false} SeedNameable(capacity: nat, key: ProcessKey, d: Seeding, entries: seq<DirEntry>)
    requires Nameable(d.state)
    ensures Nameable(Seed(capacity, key, d, entries).state)
    decreases |entries|
  {
    if entries != [] {
      FixedNamesValid();
      match entries[0]
      case Unusable =>
        SeedNameable(capacity, key, d.(state := d.state.(gaps := d.state.gaps + {SnapshotRace})), entries[1..]);
      case Task(tid, comm) =>
        if tid == key.tgid {
          SeedNameable(capacity, key, d, entries[1..]);
        } else if |d.index| < capacity {
          SeedNameable(capacity, key, SeedOne(key, d, tid, comm), entries[1..]);
        }
    }
  }

  lemma NamesStayValid(p: ProcessState, t: TaskKey, raw: string)
    requires Nameable(p) && ValidName(raw)
    ensures Nameable(AddTask(p, t, raw)) && Nameable(RenameTask(p, t, raw))
  {
    FixedNamesValid();
  }

  lemma EnsureNameable(s: Store, at: int, a: nat, p: Process, g: Generation)
    requires AllNameable(s.states) && p.Leader() && g.Valid()
    ensures AllNameable(EnsureState(s, at, a, p, g).0.states)
  {
    hide Nameable;
    NewNameable(a, p, g, at);
  }

  lemma RetireReusedNameable(s: Store, l: Locator)
    requires AllNameable(s.states)
    ensures AllNameable(RetireReused(s, l).states)
  {
    hide Nameable;
    if l in s.index && s.index[l].0 in s.states && s.index[l].1 in s.states[s.index[l].0].tasks {
      var p := s.states[s.index[l].0];
      SameNames(p, LoseTask(p, s.index[l].1));
    }
  }

  lemma PlaceTaskNameable(s: Store, key: ProcessKey, task: TaskStart)
    requires AllNameable(s.states) && key in s.states && ValidName(task.name)
    ensures AllNameable(PlaceTask(s, key, task).states)
  {
    hide Nameable;
    SameNames(s.states[key], s.states[key].(gaps := s.states[key].gaps + {StateCapacity}));
    NamesStayValid(s.states[key], TaskKey(task.tid, s.next, task.at), task.name);
  }

  lemma ThreadStartNameable(s: Store, at: int, a: nat, p: Process, g: Generation, task: TaskStart)
    requires AllNameable(s.states) && p.Leader() && g.Valid() && ValidName(task.name)
    ensures AllNameable(ObserveThreadStart(s, at, a, p, g, task).states)
  {
    hide AllNameable;
    var key, e := KeyOf(p), EnsureState(s, at, a, p, g);
    EnsureNameable(s, at, a, p, g);
    if e.1 {
      var l := (key.tgid, task.tid);
      RetireReusedNameable(e.0, l);
      PlaceTaskNameable(RetireReused(e.0, l), key, task);
    }
  }

  lemma StepNameable(s: Store, op: Op)
    requires AllNameable(s.states) && WellFormed(op)
    ensures AllNameable(Apply(s, op).states)
  {
    hide Nameable;
    match op
    case ProcessStarted(at, a, p, start) => NewNameable(a, p, start.generation, at);
    case ThreadStarted(at, a, p, g, task) => ThreadStartNameable(s, at, a, p, g, task);
    case Bootstrapped(at, a, p, g, listing) => BootstrapNameable(s, at, a, p, g, listing);
    case Renamed(l, seen, name) =>
      if l in s.index && s.index[l].0 in s.states {
        NamesStayValid(s.states[s.index[l].0], s.index[l].1, name);
      }
    case ThreadExited(key, tid, seen) => ExitNameable(s, key, tid, seen);
    case ProcessExited(key) =>
      if key in s.states {
        SameNames(s.states[key], Retire(s.states[key]));
      }
    case FlushedAt(now) =>
      forall k | k in s.states ensures Nameable(Flushed(s.states[k])) {
        SameNames(s.states[k], Flushed(s.states[k]));
      }
  }

  lemma NewNameable(a: nat, p: Process, g: Generation, at: int)
    ensures p.Leader() && g.Valid() ==> Nameable(NewState(a, p, g, at))
  {}

  lemma SameNames(p: ProcessState, q: ProcessState)
    requires Nameable(p) && q.generation == p.generation && q.process == p.process && q.names.Keys == p.names.Keys
    ensures Nameable(q)
  {}

  lemma ExitNameable(s: Store, key: ProcessKey, tid: nat, seen: nat)
    requires AllNameable(s.states)
    ensures AllNameable(ObserveThreadExit(s, key, tid, seen).states)
  {
    hide Nameable;
    var l := (key.tgid, tid);
    if key in s.states && l in s.index {
      var p, t := s.states[key], s.index[l].1;
      if t in p.tasks {
        SameNames(p, DropTask(p, t));
      } else {
        SameNames(p, p.(gaps := p.gaps + {StateCapacity}));
      }
    }
  }

  lemma BootstrapNameable(s: Store, at: int, a: nat, p: Process, g: Generation, listing: Option<seq<DirEntry>>)
    requires AllNameable(s.states) && p.Leader() && g.Valid()
    ensures AllNameable(BootstrapProcess(s, at, a, p, g, listing).states)
  {
    var st := SnapshotState(a, p, g, at);
    assert Nameable(st);
    match listing
    case None =>
    case Some(entries) =>
      SeedNameable(s.capacity, KeyOf(p), Seeding(st, s.index, s.next), entries);
  }

  lemma {:induction false} RunNameable(s: Store, ops: seq<Op>)
    requires AllNameable(s.states) && forall op :: op in ops ==> WellFormed(op)
    ensures AllNameable(Run(s, ops).states)
    decreases |ops|
  {
    hide AllNameable;
    hide Apply;
    if ops != [] {
      StepNameable(s, ops[0]);
      RunNameable(Apply(s, ops[0]), ops[1..]);
    }
  }

  /** The event `flush` builds around a window. */
  function EventOf(w: Window): WindowEvent { WindowEvent(w.id, w.endedAt, w.process, w) }

  /**
   In every run with acceptable inputs and fewer than 2^64 tasks, every window a flush reports passes validation,
   survives the wire unchanged and is accepted by the server.
   */
  lemma {:induction false} EveryWindowAccepted(capacity: nat, ops: seq<Op>, k: ProcessKey, w: Window)
    requires forall op :: op in ops ==> WellFormed(op)
    requires var s := Run(Init(capacity), ops); s.next <= U64_MAX + 1 && k in s.states && Reports(w, s.states[k])
    ensures Validate(w) == Ok && ServerAccepts(EventOf(w))
    ensures Fits(w.startedAt) && Fits(w.endedAt) ==> Decode(Encode(w), w.process) == Accepted(w)
  {
    var s := Run(Init(capacity), ops);
    ReachableInv(capacity, ops);
    RunNameable(Init(capacity), ops);
    assert Good(k, s.states[k], s.next);
    ReportExact(s.states[k], w);
    RoundTripExact(w);
  }

  // ---------------------------------------------------------------- an unsafe bootstrap

  /** Thread 5 of process 9 starts in cgroup 1 of an empty store. */
  function OneThread(): Store {
    Apply(Init(4), ThreadStarted(0, 0, Process(1, 9, 9, "a"), Generation(1, NIL, false), TaskStart(5, 1, "t")))
  }

  lemma OneThreadKnown()
    ensures Inv(OneThread()) && (9, 5) in OneThread().index && |OneThread().index| == 1
    ensures OneThread().capacity == 4 && OneThread().states.Keys == {ProcessKey(1, 9)}
  {
    hide Inv;
    var p, g := Process(1, 9, 9, "a"), Generation(1, NIL, false);
    var e := EnsureState(Init(4), 0, 0, p, g);
    InitInv(4);
    ThreadStartInv(Init(4), 0, 0, p, g, TaskStart(5, 1, "t"));
    assert e.1 && e.0.index == map[] && e.0.capacity == 4;
    assert RetireReused(e.0, (9, 5)) == e.0;
  }

  /** Bootstrapping the same process id from a listing that names the thread leaves its first task orphaned. */
  lemma UnsafeBootstrapBreaksTheIndex()
    ensures Inv(OneThread())
    ensures !Inv(BootstrapProcess(OneThread(), 0, 0, Process(2, 9, 9, "a"), Generation(2, NIL, false), Some([Task(5, None)])))
  {
    hide Inv;
    hide OneThread;
    OneThreadKnown();
    var s, p, l := OneThread(), Process(2, 9, 9, "a"), Some([Task(5, None)]);
    assert |s.states| == |s.states.Keys| == 1 && |s.index.Keys| == 1;
    assert !Clear(s.capacity, 9, s.index.Keys, l.value);
    BootstrapExact(s, 0, 0, p, Generation(2, NIL, false), l);
  }
}
