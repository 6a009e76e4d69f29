/** The store refines the flat model: over every safe run it shows what the model computes, and so do its windows. */
module TaskLifecycleRefinement {
  import opened Text
  import opened Counting
  import opened ThreadWindow
  import opened TaskLifecycle
  import opened TaskLifecycleInvariant
  import opened TaskLifecycleBootstrap
  import opened TaskLifecycleRuns
  import opened TaskLifecycleLive
  import opened TaskLifecycleFlat

  // ---------------------------------------------------------------- the store's view

  function TalliesOf(names: map<string, NameState>): map<string, Tally> {
    map n | n in names :: Tally(names[n].created, names[n].exited)
  }

  function ProcOf(p: ProcessState): Proc {
    Proc(p.attribution, p.process, p.generation, p.retired, p.windowStart, p.activeAtStart, p.peakActive,
         p.created, p.exited, p.overflow, TalliesOf(p.names), p.gaps, p.baseline, p.complete)
  }

  function ProcsOf(states: map<ProcessKey, ProcessState>): Procs { map k | k in states :: ProcOf(states[k]) }

  ghost function FlatOf(s: Store): Flat { Flat(s.capacity, Live(s), ProcsOf(s.states)) }

  lemma ProcsAt(states: map<ProcessKey, ProcessState>, k: ProcessKey)
    ensures k in ProcsOf(states) <==> k in states
    ensures k in states ==> ProcsOf(states)[k] == ProcOf(states[k])
  {
    hide ProcOf;
  }

  lemma ProcsUpdate(states: map<ProcessKey, ProcessState>, k: ProcessKey, p: ProcessState)
    ensures ProcsOf(states[k := p]) == ProcsOf(states)[k := ProcOf(p)]
  {
    hide ProcOf;
  }

  lemma ProcsRemove(states: map<ProcessKey, ProcessState>, k: ProcessKey)
    ensures ProcsOf(states - {k}) == ProcsOf(states) - {k}
  {
    hide ProcOf;
  }

  lemma ProcsSize(states: map<ProcessKey, ProcessState>)
    ensures |ProcsOf(states)| == |states|
  {
    assert ProcsOf(states).Keys == states.Keys;
    assert |ProcsOf(states)| == |ProcsOf(states).Keys| && |states| == |states.Keys|;
  }

  lemma LiveSize(s: Store)
    ensures |Live(s)| == |s.index|
  {
    assert Live(s).Keys == s.index.Keys;
    assert |Live(s)| == |Live(s).Keys| && |s.index| == |s.index.Keys|;
  }

  lemma NewProcIs(a: nat, p: Process, g: Generation, at: int)
    ensures ProcOf(NewState(a, p, g, at)) == NewProc(a, p, g, at)
  {
    assert TalliesOf(map[]) == map[];
  }

  // ---------------------------------------------------------------- live threads are counted alike

  ghost function Locate(k: ProcessKey, ts: set<TaskKey>): map<TaskKey, Locator> { map t | t in ts :: (k.tgid, t.tid) }

  lemma LocateSize(states: map<ProcessKey, ProcessState>, index: Index, k: ProcessKey, ts: set<TaskKey>)
    requires Indexed(states, index) && k in states && ts <= states[k].tasks.Keys
    ensures |Locate(k, ts).Values| == |ts|
  {
    var m := Locate(k, ts);
    assert Injective(m) by {
      forall a, b | a in m && b in m && m[a] == m[b] ensures a == b {
        assert index[(k.tgid, a.tid)] == (k, a) && index[(k.tgid, b.tid)] == (k, b);
      }
    }
    InjectiveSize(m);
    assert m.Keys == ts;
    assert |m| == |m.Keys|;
  }

  lemma TaskIndexed(states: map<ProcessKey, ProcessState>, index: Index, k: ProcessKey, t: TaskKey)
    requires Indexed(states, index) && k in states && t in states[k].tasks
    ensures (k.tgid, t.tid) in index && index[(k.tgid, t.tid)] == (k, t)
  {}

  lemma OwnedSize(s: Store, k: ProcessKey)
    requires Indexed(s.states, s.index) && k in s.states
    ensures |Owned(Live(s), k)| == |s.states[k].tasks|
  {
    hide Indexed;
    var ts := s.states[k].tasks.Keys;
    LocateSize(s.states, s.index, k, ts);
    forall l ensures l in Owned(Live(s), k) <==> l in Locate(k, ts).Values {
      if l in Owned(Live(s), k) {
        IndexedAt(s.states, s.index, l);
        assert Locate(k, ts)[s.index[l].1] == l;
      }
      if l in Locate(k, ts).Values {
        var t :| t in ts && Locate(k, ts)[t] == l;
        TaskIndexed(s.states, s.index, k, t);
      }
    }
    assert Owned(Live(s), k) == Locate(k, ts).Values;
    assert |ts| == |s.states[k].tasks|;
  }

  lemma OwnedAsSize(s: Store, k: ProcessKey, n: string)
    requires Indexed(s.states, s.index) && k in s.states
    ensures |OwnedAs(Live(s), k, n)| == |KeysOf(s.states[k].tasks, n)|
  {
    hide Indexed;
    var ts := KeysOf(s.states[k].tasks, n);
    LocateSize(s.states, s.index, k, ts);
    forall l ensures l in OwnedAs(Live(s), k, n) <==> l in Locate(k, ts).Values {
      if l in OwnedAs(Live(s), k, n) {
        IndexedAt(s.states, s.index, l);
        assert Locate(k, ts)[s.index[l].1] == l;
      }
      if l in Locate(k, ts).Values {
        var t :| t in ts && Locate(k, ts)[t] == l;
        TaskIndexed(s.states, s.index, k, t);
      }
    }
    assert OwnedAs(Live(s), k, n) == Locate(k, ts).Values;
  }

  // ---------------------------------------------------------------- one process

  lemma TalliesUpdate(names: map<string, NameState>, n: string, e: NameState)
    ensures TalliesOf(names[n := e]) == TalliesOf(names)[n := Tally(e.created, e.exited)]
  {}

  lemma NameIs(names: map<string, NameState>, raw: string)
    ensures Bucket(names, raw) == NameIn(TalliesOf(names), raw)
    ensures TaskLifecycleFlat.Fits(TalliesOf(names), raw) <==> raw in names || |names| < MAX_THREAD_NAMES
    ensures forall n :: TallyOf(TalliesOf(names), n) == Tally(EntryOf(names, n).created, EntryOf(names, n).exited)
  {
    assert TalliesOf(names).Keys == names.Keys;
    assert |TalliesOf(names)| == |TalliesOf(names).Keys| && |names| == |names.Keys|;
  }

  lemma AddTaskProc(p: ProcessState, t: TaskKey, raw: string)
    ensures ProcOf(AddTask(p, t, raw)) == Begins(ProcOf(p), raw, |AddTask(p, t, raw).tasks|)
  {
    var name := Bucket(p.names, raw);
    NameIs(p.names, raw);
    TalliesUpdate(p.names, name, CountCreated(EntryOf(p.names, name)));
    hide TalliesOf;
  }

  lemma AdoptTaskProc(p: ProcessState, t: TaskKey, raw: string)
    ensures ProcOf(AdoptTask(p, t, raw)) == TakesName(ProcOf(p), raw)
  {
    var name := Bucket(p.names, raw);
    NameIs(p.names, raw);
    TalliesUpdate(p.names, name, CountJoined(EntryOf(p.names, name)));
    hide TalliesOf;
  }

  lemma RenameTaskProc(p: ProcessState, t: TaskKey, raw: string)
    requires t in p.tasks && p.tasks[t] in p.names
    ensures ProcOf(RenameTask(p, t, raw)) == TakesName(ProcOf(p), raw)
  {
    var name, was := Bucket(p.names, raw), p.tasks[t];
    var left := p.names[was := CountLeft(p.names[was])];
    NameIs(p.names, raw);
    TalliesUpdate(p.names, was, CountLeft(p.names[was]));
    assert TalliesOf(left) == TalliesOf(p.names);
    TalliesUpdate(left, name, CountJoined(EntryOf(left, name)));
    assert name == was ==> TalliesOf(p.names)[name := TallyOf(TalliesOf(p.names), name)] == TalliesOf(p.names);
  }

  lemma DropTaskProc(p: ProcessState, t: TaskKey)
    requires t in p.tasks && p.tasks[t] in p.names
    ensures ProcOf(DropTask(p, t)) == Ends(ProcOf(p), p.tasks[t])
    ensures ProcOf(LoseTask(p, t)) == TaskLifecycleFlat.Misses(Ends(ProcOf(p), p.tasks[t]))
  {
    TalliesUpdate(p.names, p.tasks[t], CountExited(p.names[p.tasks[t]]));
  }

  lemma GapProc(p: ProcessState, gap: Gap)
    ensures ProcOf(p.(gaps := p.gaps + {gap})) == Gapped(ProcOf(p), gap)
  {}

  // ---------------------------------------------------------------- each step

  lemma RemoveStateFlat(s: Store, key: ProcessKey)
    requires Inv(s)
    ensures FlatOf(RemoveState(s, key)) == Forgotten(FlatOf(s), key)
  {
    hide Inv;
    hide Live;
    hide ProcOf;
    RemoveStateLive(s, key);
    ProcsRemove(s.states, key);
    if key !in s.states {
      assert ProcsOf(s.states) - {key} == ProcsOf(s.states);
    }
  }

  lemma StartedFlat(s: Store, at: int, a: nat, p: Process, start: ProcessStart)
    requires Inv(s)
    ensures FlatOf(ObserveProcessStart(s, at, a, p, start)) == Started(FlatOf(s), at, a, p, start)
  {
    hide Inv;
    hide Live;
    hide ProcsOf;
    hide ProcOf;
    var key, r := KeyOf(p), RemoveState(s, KeyOf(p));
    RemoveStateFlat(s, key);
    ProcessStartLive(s, at, a, p, start);
    NewProcIs(a, p, start.generation, at);
    ProcsUpdate(r.states, key, NewState(a, p, start.generation, at));
  }

  lemma EnsuredFlat(s: Store, at: int, a: nat, p: Process, g: Generation)
    requires Inv(s)
    ensures FlatOf(EnsureState(s, at, a, p, g).0) == Ensured(FlatOf(s), at, a, p, g)
    ensures var f, key := Ensured(FlatOf(s), at, a, p, g), KeyOf(p);
            EnsureState(s, at, a, p, g).1 <==> key in f.procs && !f.procs[key].retired
  {
    hide Inv;
    hide Live;
    hide TalliesOf;
    var key, r := KeyOf(p), RemoveState(s, KeyOf(p));
    RemoveStateFlat(s, key);
    EnsureStateLive(s, at, a, p, g);
    NewProcIs(a, p, g, at);
    ProcsUpdate(r.states, key, NewState(a, p, g, at));
    ProcsSize(r.states);
  }

  lemma KnownTask(s: Store, l: Locator)
    requires Inv(s) && l in s.index
    ensures var (k, t) := s.index[l]; k in s.states && t in s.states[k].tasks && s.states[k].tasks[t] in s.states[k].names
  {
    hide Indexed;
    IndexedAt(s.states, s.index, l);
    assert Good(s.index[l].0, s.states[s.index[l].0], s.next);
  }

  lemma LostFlat(s: Store, l: Locator)
    requires Inv(s)
    ensures FlatOf(RetireReused(s, l)) == Lost(FlatOf(s), l)
  {
    hide Inv;
    hide ProcOf;
    hide LoseTask;
    RetireReusedLive(s, l);
    if l in s.index {
      KnownTask(s, l);
      var (k, t) := s.index[l];
      DropTaskProc(s.states[k], t);
      ProcsUpdate(s.states, k, LoseTask(s.states[k], t));
      assert Live(s)[l] == Thread(k, t.startedAt, s.states[k].tasks[t]);
    }
  }

  lemma PlacedFlat(s: Store, key: ProcessKey, task: TaskStart)
    requires Inv(s) && key in s.states && !s.states[key].retired && (key.tgid, task.tid) !in s.index
    ensures FlatOf(PlaceTask(s, key, task)) == Placed(FlatOf(s), key, task)
  {
    hide Inv;
    hide Live;
    hide ProcOf;
    hide AddTask;
    hide Begins;
    hide Owned;
    var r, p := PlaceTask(s, key, task), s.states[key];
    PlaceTaskLive(s, key, task);
    PlaceTaskInv(s, key, task);
    InvIndexed(r);
    OwnedSize(r, key);
    LiveSize(s);
    NameIs(p.names, task.name);
    var t := TaskKey(task.tid, s.next, task.at);
    AddTaskProc(p, t, task.name);
    ProcNames(p);
    ProcsUpdate(s.states, key, AddTask(p, t, task.name));
    GapProc(p, StateCapacity);
    ProcsUpdate(s.states, key, p.(gaps := p.gaps + {StateCapacity}));
  }

  lemma ProcNames(p: ProcessState)
    ensures ProcOf(p).names == TalliesOf(p.names)
  {}

  lemma ThreadOnFlat(s: Store, key: ProcessKey, task: TaskStart)
    requires Inv(s) && key in s.states && !s.states[key].retired
    ensures FlatOf(StartTask(s, key, task)) == ThreadOn(FlatOf(s), key, task)
  {
    hide Inv;
    hide ProcOf;
    hide RetireReused;
    hide PlaceTask;
    hide Lost;
    hide Placed;
    var l := (key.tgid, task.tid);
    assert l in Live(s) <==> l in s.index;
    if !(l in s.index && s.index[l].1.startedAt >= task.at) {
      RetireReusedInv(s, l);
      LostFlat(s, l);
      PlacedFlat(RetireReused(s, l), key, task);
    }
  }

  lemma ThreadStartedFlat(s: Store, at: int, a: nat, p: Process, g: Generation, task: TaskStart)
    requires Inv(s)
    ensures FlatOf(ObserveThreadStart(s, at, a, p, g, task)) == FlatStep(FlatOf(s), ThreadStarted(at, a, p, g, task))
  {
    hide Inv;
    hide FlatOf;
    hide StartTask;
    hide ThreadOn;
    hide Ensured;
    var e := EnsureState(s, at, a, p, g);
    EnsureStateInv(s, at, a, p, g);
    EnsuredFlat(s, at, a, p, g);
    if e.1 {
      ThreadOnFlat(e.0, KeyOf(p), task);
    }
  }

  lemma RenamedFlat(s: Store, l: Locator, seen: nat, name: string)
    requires Inv(s)
    ensures FlatOf(ObserveRename(s, l, seen, name)) == Relabelled(FlatOf(s), l, seen, name)
  {
    hide Inv;
    hide ProcOf;
    hide RenameTask;
    hide TakesName;
    RenameLive(s, l, seen, name);
    if l in s.index {
      KnownTask(s, l);
      var (k, t) := s.index[l];
      var p := s.states[k];
      RenameTaskProc(p, t, name);
      NameIs(p.names, name);
      ProcNames(p);
      ProcsUpdate(s.states, k, RenameTask(p, t, name));
    }
  }

  lemma ThreadExitedFlat(s: Store, key: ProcessKey, tid: nat, seen: nat)
    requires Inv(s)
    ensures FlatOf(ObserveThreadExit(s, key, tid, seen)) == ThreadOff(FlatOf(s), key, tid, seen)
  {
    hide Inv;
    hide ProcOf;
    hide DropTask;
    hide Ends;
    var l := (key.tgid, tid);
    ThreadExitLive(s, key, tid, seen);
    if l in s.index {
      KnownTask(s, l);
      if s.index[l].0 == key {
        DropTaskProc(s.states[key], s.index[l].1);
        ProcsUpdate(s.states, key, DropTask(s.states[key], s.index[l].1));
      }
    }
  }

  lemma TalliesRetired(names: map<string, NameState>, tasks: map<TaskKey, string>, threads: Table, key: ProcessKey)
    requires forall n :: n in names ==> |OwnedAs(threads, key, n)| == |KeysOf(tasks, n)|
    ensures TalliesOf(NamesAfterExit(names, tasks))
         == map n | n in TalliesOf(names) :: Tally(TalliesOf(names)[n].created, TalliesOf(names)[n].exited + |OwnedAs(threads, key, n)|)
  {
    hide OwnedAs;
    hide KeysOf;
  }

  lemma RetiresAs(p: ProcessState, threads: Table, key: ProcessKey)
    requires |Owned(threads, key)| == |p.tasks| && forall n :: n in p.names ==> |OwnedAs(threads, key, n)| == |KeysOf(p.tasks, n)|
    ensures ProcOf(Retire(p)) == Retires(ProcOf(p), threads, key)
  {
    TalliesRetired(p.names, p.tasks, threads, key);
    hide TalliesOf;
    hide NamesAfterExit;
    hide Owned;
    hide OwnedAs;
    hide KeysOf;
    NoTasks(p.tasks);
    assert Owned(threads, key) == {} <==> |Owned(threads, key)| == 0;
  }

  lemma RetireProc(s: Store, key: ProcessKey)
    requires Inv(s) && key in s.states
    ensures ProcOf(Retire(s.states[key])) == Retires(ProcOf(s.states[key]), Live(s), key)
  {
    InvIndexed(s);
    hide Inv;
    hide Indexed;
    hide Live;
    hide Owned;
    hide OwnedAs;
    hide KeysOf;
    hide Retire;
    hide Retires;
    hide ProcOf;
    var p := s.states[key];
    OwnedSize(s, key);
    forall n | n in p.names ensures |OwnedAs(Live(s), key, n)| == |KeysOf(p.tasks, n)| {
      OwnedAsSize(s, key, n);
    }
    RetiresAs(p, Live(s), key);
  }

  lemma NoTasks(tasks: map<TaskKey, string>)
    ensures tasks == map[] <==> |tasks| == 0
  {}

  lemma ProcessExitedFlat(s: Store, key: ProcessKey)
    requires Inv(s)
    ensures FlatOf(ObserveProcessExit(s, key)) == ProcessOff(FlatOf(s), key)
  {
    hide Inv;
    hide Live;
    hide ProcOf;
    hide Retire;
    hide Retires;
    ProcessExitLive(s, key);
    if key in s.states {
      RetireProc(s, key);
      ProcsUpdate(s.states, key, Retire(s.states[key]));
    }
  }

  lemma FlushedProc(p: ProcessState, live: nat)
    requires live == |p.tasks|
    ensures ProcOf(Flushed(p)) == NextWindow(ProcOf(p), live)
  {
    assert TalliesOf(Flushed(p).names) == map n | n in TalliesOf(p.names) :: Tally(0, 0);
  }

  lemma FlushedProcs(states: map<ProcessKey, ProcessState>, threads: Table, s: Store, now: int)
    requires s.states == states && forall k :: k in states ==> ProcOf(Flushed(states[k])) == NextWindow(ProcOf(states[k]), |Owned(threads, k)|)
    ensures ProcsOf(FlushDue(s, now).states) == Flush(Flat(s.capacity, threads, ProcsOf(states)), now).procs
  {
    hide Flushed;
    hide NextWindow;
    hide TalliesOf;
    hide Owned;
    hide ProcsOf;
    var r, f := FlushDue(s, now).states, Flush(Flat(s.capacity, threads, ProcsOf(states)), now).procs;
    forall k ensures (k in ProcsOf(r) <==> k in f) && (k in f ==> ProcsOf(r)[k] == f[k]) {
      ProcsAt(states, k);
      ProcsAt(r, k);
    }
  }

  lemma FlushedFlat(s: Store, now: int)
    requires Inv(s)
    ensures FlatOf(FlushDue(s, now)) == Flush(FlatOf(s), now)
  {
    InvIndexed(s);
    hide Inv;
    hide Indexed;
    hide Live;
    hide Owned;
    hide Flushed;
    hide NextWindow;
    hide ProcOf;
    FlushDueLive(s, now);
    forall k | k in s.states ensures ProcOf(Flushed(s.states[k])) == NextWindow(ProcOf(s.states[k]), |Owned(Live(s), k)|) {
      OwnedSize(s, k);
      FlushedProc(s.states[k], |Owned(Live(s), k)|);
    }
    FlushedProcs(s.states, Live(s), s, now);
  }

  // ---------------------------------------------------------------- bootstrapping

  /** The store a half-done seeding stands for. */
  function Half(capacity: nat, key: ProcessKey, states: map<ProcessKey, ProcessState>, d: Seeding): Store {
    Store(capacity, states[key := d.state], d.index, d.next)
  }

  lemma RestateFlat(capacity: nat, key: ProcessKey, states: map<ProcessKey, ProcessState>, d: Seeding, p: ProcessState)
    requires p.tasks == d.state.tasks
    ensures FlatOf(Half(capacity, key, states, d.(state := p))) == WithProc(FlatOf(Half(capacity, key, states, d)), key, ProcOf(p))
  {
    hide ProcOf;
    var s, r := Half(capacity, key, states, d), Half(capacity, key, states, d.(state := p));
    assert r.states == s.states[key := p];
    ProcsUpdate(s.states, key, p);
    RetaskLive(s, key, p);
  }

  lemma SeedOneIs(key: ProcessKey, d: Seeding, tid: nat, comm: Option<string>)
    ensures var e, t, p := SeedOne(key, d, tid, comm), TaskKey(tid, d.next, 0), ProcOf(d.state);
            && ProcOf(e.state) == TakesName(if Usable(comm) then p else Gapped(p, SnapshotRace), Raw(comm))
            && e.state.tasks == d.state.tasks[t := NameIn(p.names, Raw(comm))]
            && e.index == d.index[(key.tgid, tid) := (key, t)] && e.next == d.next + 1
  {
    var p := if Usable(comm) then d.state else d.state.(gaps := d.state.gaps + {SnapshotRace});
    AdoptTaskProc(p, TaskKey(tid, d.next, 0), Raw(comm));
    GapProc(d.state, SnapshotRace);
    NameIs(p.names, Raw(comm));
    hide TakesName;
    hide TalliesOf;
  }

  lemma SeedPoints(capacity: nat, key: ProcessKey, states: map<ProcessKey, ProcessState>, d: Seeding, tid: nat)
    requires SeedInv(capacity, key, states, d)
    ensures TaskKey(tid, d.next, 0) !in d.state.tasks
    ensures var s := Half(capacity, key, states, d);
            forall l :: l in s.index ==> s.index[l].0 in s.states && s.index[l].1 in s.states[s.index[l].0].tasks
  {
    hide Indexed;
    hide AllGood;
    var s := Half(capacity, key, states, d);
    forall l | l in s.index ensures s.index[l].0 in s.states && s.index[l].1 in s.states[s.index[l].0].tasks {
      IndexedAt(s.states, s.index, l);
    }
  }

  lemma SeedOneFlat(capacity: nat, key: ProcessKey, states: map<ProcessKey, ProcessState>, d: Seeding, tid: nat, comm: Option<string>)
    requires SeedInv(capacity, key, states, d)
    ensures FlatOf(Half(capacity, key, states, SeedOne(key, d, tid, comm))) == SeededOne(FlatOf(Half(capacity, key, states, d)), key, tid, comm)
  {
    hide SeedOne;
    hide SeedInv;
    hide Live;
    hide ProcOf;
    hide TakesName;
    var s, e := Half(capacity, key, states, d), SeedOne(key, d, tid, comm);
    var r := Half(capacity, key, states, e);
    SeedOneIs(key, d, tid, comm);
    SeedPoints(capacity, key, states, d, tid);
    assert s.states[key := e.state] == r.states;
    JoinLive(s, key, e.state, TaskKey(tid, d.next, 0), NameIn(ProcOf(d.state).names, Raw(comm)), e.next);
    ProcsUpdate(s.states, key, e.state);
  }

  lemma HalfKeys(capacity: nat, key: ProcessKey, states: map<ProcessKey, ProcessState>, d: Seeding)
    ensures var f := FlatOf(Half(capacity, key, states, d));
            f.capacity == capacity && |f.threads| == |d.index| == |d.index.Keys| && key in f.procs && f.procs[key] == ProcOf(d.state)
  {
    LiveSize(Half(capacity, key, states, d));
    assert |d.index| == |d.index.Keys|;
  }

  lemma {:induction false} SeedFlat(capacity: nat, key: ProcessKey, states: map<ProcessKey, ProcessState>, d: Seeding, entries: seq<DirEntry>)
    requires SeedInv(capacity, key, states, d) && Clear(capacity, key.tgid, d.index.Keys, entries)
    ensures FlatOf(Half(capacity, key, states, Seed(capacity, key, d, entries)))
         == Seeded(FlatOf(Half(capacity, key, states, d)), key, entries)
    decreases |entries|
  {
    hide SeedInv;
    hide FlatOf;
    hide ProcOf;
    hide SeededOne;
    hide SeedOne;
    HalfKeys(capacity, key, states, d);
    if entries != [] {
      match entries[0]
      case Unusable =>
        var p := d.state.(gaps := d.state.gaps + {SnapshotRace});
        GapSeed(capacity, key, states, d, SnapshotRace);
        GapProc(d.state, SnapshotRace);
        RestateFlat(capacity, key, states, d, p);
        SeedFlat(capacity, key, states, d.(state := p), entries[1..]);
      case Task(tid, comm) =>
        if tid == key.tgid {
          SeedFlat(capacity, key, states, d, entries[1..]);
        } else if |d.index| >= capacity {
          GapProc(d.state, SnapshotTruncated);
          RestateFlat(capacity, key, states, d, d.state.(gaps := d.state.gaps + {SnapshotTruncated}));
        } else {
          var e := SeedOne(key, d, tid, comm);
          SeedOneInv(capacity, key, states, d, tid, comm);
          SeedOneFlat(capacity, key, states, d, tid, comm);
          SeedOneIs(key, d, tid, comm);
          assert e.index.Keys == d.index.Keys + {(key.tgid, tid)};
          SeedFlat(capacity, key, states, e, entries[1..]);
        }
    }
  }

  lemma NewHalf(s: Store, a: nat, p: Process, g: Generation, at: int)
    requires Inv(s) && KeyOf(p) !in s.states
    ensures FlatOf(Half(s.capacity, KeyOf(p), s.states, Seeding(SnapshotState(a, p, g, at), s.index, s.next)))
         == WithProc(FlatOf(s), KeyOf(p), NewProc(a, p, g, at).(baseline := Snapshot))
  {
    hide Indexed;
    hide AllGood;
    hide TalliesOf;
    var key, q := KeyOf(p), SnapshotState(a, p, g, at);
    forall l | l in s.index ensures s.index[l].0 != key {
      IndexedAt(s.states, s.index, l);
    }
    UnownedStateLive(s, key, q);
    NewProcIs(a, p, g, at);
    ProcsUpdate(s.states, key, q);
  }

  /** Settling a seeding counts its tasks in the table. */
  lemma FinishFlat(capacity: nat, key: ProcessKey, states: map<ProcessKey, ProcessState>, d: Seeding)
    requires Indexed(states[key := d.state], d.index)
    ensures FlatOf(Half(capacity, key, states, d.(state := Finish(d.state)))) == TaskLifecycleFlat.Settled(FlatOf(Half(capacity, key, states, d)), key)
  {
    hide Indexed;
    hide Live;
    hide Owned;
    hide TalliesOf;
    OwnedSize(Half(capacity, key, states, d), key);
    HalfKeys(capacity, key, states, d);
    RestateFlat(capacity, key, states, d, Finish(d.state));
  }

  lemma SeedInvIndexed(capacity: nat, key: ProcessKey, states: map<ProcessKey, ProcessState>, d: Seeding)
    requires SeedInv(capacity, key, states, d)
    ensures Indexed(states[key := d.state], d.index)
  {}

  /** A safe bootstrap: the listed threads appear, started at zero, under the names they were listed with. */
  lemma BootstrapFlat(s: Store, at: int, a: nat, p: Process, g: Generation, listing: Option<seq<DirEntry>>)
    requires Inv(s) && BootstrapSafe(s, p, listing)
    ensures FlatOf(BootstrapProcess(s, at, a, p, g, listing)) == FromListing(FlatOf(s), at, a, p, g, listing)
  {
    ProcsSize(s.states);
    if Bootstraps(s, p) {
      match listing
      case None => UnlistedFlat(s, at, a, p, g);
      case Some(entries) => ListedFlat(s, at, a, p, g, entries);
    }
  }

  /** The half-built process stays indexed when only its flags change. */
  lemma RestateIndexed(capacity: nat, key: ProcessKey, states: map<ProcessKey, ProcessState>, d: Seeding, p: ProcessState)
    requires SeedInv(capacity, key, states, d) && p.tasks == d.state.tasks
    ensures Indexed(states[key := p], d.index)
  {
    SeedInvIndexed(capacity, key, states, d);
    IndexedSame(states[key := d.state], d.index, key, p);
    Overwrite(states, key, d.state, p);
  }

  lemma UnlistedProc(a: nat, p: Process, g: Generation, at: int)
    ensures ProcOf(SnapshotState(a, p, g, at).(baseline := Unavailable, gaps := {SnapshotPermission}))
         == Gapped(NewProc(a, p, g, at), SnapshotPermission).(baseline := Unavailable)
  {
    NewProcIs(a, p, g, at);
    assert {} + {SnapshotPermission} == {SnapshotPermission};
  }

  lemma UnlistedFlat(s: Store, at: int, a: nat, p: Process, g: Generation)
    requires Inv(s) && Bootstraps(s, p) && |ProcsOf(s.states)| == |s.states|
    ensures FlatOf(BootstrapProcess(s, at, a, p, g, None)) == FromListing(FlatOf(s), at, a, p, g, None)
  {
    hide Inv;
    hide Live;
    hide ProcOf;
    hide NewProc;
    hide SeedInv;
    hide Indexed;
    hide Finish;
    hide TaskLifecycleFlat.Settled;
    var key, q := KeyOf(p), SnapshotState(a, p, g, at);
    var d := Seeding(q, s.index, s.next);
    var r := q.(baseline := Unavailable, gaps := {SnapshotPermission});
    NewHalf(s, a, p, g, at);
    SnapshotSeedInv(s, at, a, p, g);
    RestateFlat(s.capacity, key, s.states, d, r);
    RestateIndexed(s.capacity, key, s.states, d, r);
    UnlistedProc(a, p, g, at);
    FinishFlat(s.capacity, key, s.states, d.(state := r));
    WithProcTwice(FlatOf(s), key, NewProc(a, p, g, at).(baseline := Snapshot), ProcOf(r));
  }

  lemma WithProcTwice(f: Flat, key: ProcessKey, p: Proc, q: Proc)
    ensures WithProc(WithProc(f, key, p), key, q) == WithProc(f, key, q)
  {}

  lemma ListedFlat(s: Store, at: int, a: nat, p: Process, g: Generation, entries: seq<DirEntry>)
    requires Inv(s) && Bootstraps(s, p) && BootstrapSafe(s, p, Some(entries)) && |ProcsOf(s.states)| == |s.states|
    ensures FlatOf(BootstrapProcess(s, at, a, p, g, Some(entries))) == FromListing(FlatOf(s), at, a, p, g, Some(entries))
  {
    hide Inv;
    hide Live;
    hide ProcOf;
    hide SeedInv;
    hide TaskLifecycleFlat.Settled;
    var key, d := KeyOf(p), Seeding(SnapshotState(a, p, g, at), s.index, s.next);
    var e := Seed(s.capacity, key, d, entries);
    NewHalf(s, a, p, g, at);
    SnapshotSeedInv(s, at, a, p, g);
    SeedFlat(s.capacity, key, s.states, d, entries);
    SeedExact(s.capacity, key, s.states, d, entries);
    SeedInvIndexed(s.capacity, key, s.states, e);
    FinishFlat(s.capacity, key, s.states, e);
  }

  // ---------------------------------------------------------------- whole runs

  /** One step of the store is one step of the flat model. */
  lemma StepFlat(s: Store, op: Op)
    requires Inv(s) && Safe(s, op)
    ensures FlatOf(Apply(s, op)) == FlatStep(FlatOf(s), op)
  {
    hide Inv;
    hide FlatOf;
    match op
    case ProcessStarted(at, a, p, start) => StartedFlat(s, at, a, p, start);
    case ThreadStarted(at, a, p, g, task) =>
      hide FlatStep;
      ThreadStartedFlat(s, at, a, p, g, task);
    case Bootstrapped(at, a, p, g, listing) => BootstrapFlat(s, at, a, p, g, listing);
    case Renamed(l, seen, name) => RenamedFlat(s, l, seen, name);
    case ThreadExited(key, tid, seen) => ThreadExitedFlat(s, key, tid, seen);
    case ProcessExited(key) => ProcessExitedFlat(s, key);
    case FlushedAt(now) => FlushedFlat(s, now);
  }

  lemma {:induction false} RunFlat(s: Store, ops: seq<Op>)
    requires Inv(s) && SafeRun(s, ops)
    ensures FlatOf(Run(s, ops)) == FlatRun(FlatOf(s), ops)
    decreases |ops|
  {
    hide Inv;
    hide Apply;
    hide FlatOf;
    hide FlatStep;
    if ops != [] {
      StepFlat(s, ops[0]);
      StepExact(s, ops[0]);
      RunFlat(Apply(s, ops[0]), ops[1..]);
    }
  }

  /** After every safe run from the empty store, the store shows exactly what the flat model computes. */
  lemma {:induction false} ReachableFlat(capacity: nat, ops: seq<Op>)
    requires SafeRun(Init(capacity), ops)
    ensures FlatOf(Run(Init(capacity), ops)) == FlatRun(FlatInit(capacity), ops)
  {
    InitInv(capacity);
    RunFlat(Init(capacity), ops);
    assert FlatOf(Init(capacity)) == FlatInit(capacity);
  }

  lemma ListsSay(p: ProcessState, names: seq<NameCount>, threads: Table, k: ProcessKey)
    requires Lists(names, p.names) && forall n :: n in p.names ==> |OwnedAs(threads, k, n)| == p.names[n].active
    ensures NamesSay(names, TalliesOf(p.names), threads, k)
  {
    hide OwnedAs;
    forall n | n in p.names ensures exists c :: c in names && c.name == n {
      var c := NameCount(n, p.names[n].created, p.names[n].exited, p.names[n].active);
      assert c in names;
    }
  }

  lemma ActiveSays(s: Store, k: ProcessKey, n: string)
    requires Inv(s) && k in s.states && n in s.states[k].names
    ensures |OwnedAs(Live(s), k, n)| == s.states[k].names[n].active
  {
    InvIndexed(s);
    OwnedAsSize(s, k, n);
    assert Good(k, s.states[k], s.next);
  }

  lemma SaysFrom(w: Window, p: ProcessState, f: Flat, k: ProcessKey)
    requires Reports(w, p) && k in f.procs && f.procs[k] == ProcOf(p) && |Owned(f.threads, k)| == |p.tasks|
    requires NamesSay(w.names, TalliesOf(p.names), f.threads, k)
    ensures Says(w, f, k)
  {
    hide NamesSay;
    hide TalliesOf;
    hide Owned;
    hide Lists;
  }

  /** A reported window says what the flat model says. */
  lemma {:induction false} ReportSays(s: Store, k: ProcessKey, w: Window)
    requires Inv(s) && k in s.states && Reports(w, s.states[k])
    ensures Says(w, FlatOf(s), k)
  {
    InvIndexed(s);
    hide Inv;
    hide Indexed;
    hide Live;
    hide Owned;
    hide OwnedAs;
    hide Says;
    hide NamesSay;
    hide TalliesOf;
    hide ProcsOf;
    hide ProcOf;
    OwnedSize(s, k);
    ProcsAt(s.states, k);
    var p := s.states[k];
    assert Lists(w.names, p.names);
    hide Reports;
    forall n | n in p.names ensures |OwnedAs(Live(s), k, n)| == p.names[n].active {
      ActiveSays(s, k, n);
    }
    ListsSay(p, w.names, Live(s), k);
    SaysFrom(w, p, FlatOf(s), k);
  }

  /** And so does every window of every safe run. */
  lemma {:induction false} ReachableSays(capacity: nat, ops: seq<Op>, k: ProcessKey, w: Window)
    requires SafeRun(Init(capacity), ops) && k in Run(Init(capacity), ops).states && Reports(w, Run(Init(capacity), ops).states[k])
    ensures Says(w, FlatRun(FlatInit(capacity), ops), k)
  {
    ReachableInv(capacity, ops);
    ReachableFlat(capacity, ops);
    ReportSays(Run(Init(capacity), ops), k, w);
  }
}
