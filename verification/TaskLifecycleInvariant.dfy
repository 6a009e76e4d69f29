/** The invariant of the thread lifecycle store and its preservation by every observation. */
module TaskLifecycleInvariant {
  import opened Counting
  import opened ThreadWindow
  import opened TaskLifecycle

  // ---------------------------------------------------------------- one process

  function CreatedOf(n: NameState): nat { n.created }
  function ExitedOf(n: NameState): nat { n.exited }
  function ActiveOf(n: NameState): nat { n.active }

  /** Each name's active counter counts its tasks. */
  ghost predicate ActiveCounts(tasks: map<TaskKey, string>, names: map<string, NameState>) {
    && (forall t :: t in tasks ==> tasks[t] in names)
    && (forall n :: n in names ==> names[n].active == |KeysOf(tasks, n)|)
  }

  /** The name counters add up to the given totals. */
  ghost predicate Totals(names: map<string, NameState>, created: nat, exited: nat, active: nat) {
    Sum(names, CreatedOf) == created && Sum(names, ExitedOf) == exited && Sum(names, ActiveOf) == active
  }

  ghost predicate FewNames(names: map<string, NameState>) {
    |names| <= MAX_THREAD_NAMES || (|names| == MAX_THREAD_NAMES + 1 && OTHER in names)
  }

  /** The per-name counters add up to the process counters and count its tasks. */
  ghost predicate NamesCount(p: ProcessState) {
    && ActiveCounts(p.tasks, p.names)
    && Totals(p.names, p.created, p.exited, |p.tasks|)
    && FewNames(p.names)
  }

  ghost predicate Balanced(p: ProcessState) {
    && p.activeAtStart + p.created == p.exited + |p.tasks|
    && p.activeAtStart <= p.peakActive && |p.tasks| <= p.peakActive <= p.activeAtStart + p.created
    && (p.complete ==> p.baseline != Unavailable)
    && (p.retired ==> p.tasks == map[])
  }

  ghost predicate StateInv(p: ProcessState) { NamesCount(p) && Balanced(p) }

  lemma TotalsUpdate(names: map<string, NameState>, created: nat, exited: nat, active: nat, n: string, v: NameState)
    requires Totals(names, created, exited, active)
    ensures var e := EntryOf(names, n);
            && e.created <= created && e.exited <= exited && e.active <= active
            && Totals(names[n := v], created - e.created + v.created, exited - e.exited + v.exited, active - e.active + v.active)
  {
    SumUpdate(names, CreatedOf, n, v);
    SumUpdate(names, ExitedOf, n, v);
    SumUpdate(names, ActiveOf, n, v);
    if n in names {
      SumRemove(names, CreatedOf, n);
      SumRemove(names, ExitedOf, n);
      SumRemove(names, ActiveOf, n);
    }
  }

  lemma ActiveInsert(tasks: map<TaskKey, string>, names: map<string, NameState>, t: TaskKey, n: string, v: NameState)
    requires ActiveCounts(tasks, names) && t !in tasks && v.active == EntryOf(names, n).active + 1
    ensures ActiveCounts(tasks[t := n], names[n := v])
  {
    if n !in names {
      assert KeysOf(tasks, n) == {};
    }
    var r := names[n := v];
    forall m | m in r ensures r[m].active == |KeysOf(tasks[t := n], m)| {
      KeysOfInsert(tasks, t, n, m);
    }
  }

  lemma ActiveRemove(tasks: map<TaskKey, string>, names: map<string, NameState>, t: TaskKey, v: NameState)
    requires ActiveCounts(tasks, names) && t in tasks && v.active + 1 == EntryOf(names, tasks[t]).active
    ensures ActiveCounts(tasks - {t}, names[tasks[t] := v])
  {
    var r := names[tasks[t] := v];
    forall m | m in r ensures r[m].active == |KeysOf(tasks - {t}, m)| {
      KeysOfRemove(tasks, t, m);
    }
  }

  /** The counter of a present task's name is at least one, so `saturating_sub` is plain subtraction. */
  lemma ActivePositive(tasks: map<TaskKey, string>, names: map<string, NameState>, t: TaskKey)
    requires ActiveCounts(tasks, names) && t in tasks
    ensures tasks[t] in names && names[tasks[t]].active >= 1
  {
    assert t in KeysOf(tasks, tasks[t]);
  }

  lemma FewNamesBucket(names: map<string, NameState>, raw: string, v: NameState)
    requires FewNames(names)
    ensures FewNames(names[Bucket(names, raw) := v])
  {}

  lemma AddTaskInv(p: ProcessState, t: TaskKey, raw: string)
    requires StateInv(p) && t !in p.tasks && !p.retired
    ensures StateInv(AddTask(p, t, raw))
  {
    var name := Bucket(p.names, raw);
    var v := CountCreated(EntryOf(p.names, name));
    FewNamesBucket(p.names, raw, v);
    TotalsUpdate(p.names, p.created, p.exited, |p.tasks|, name, v);
    ActiveInsert(p.tasks, p.names, t, name, v);
  }

  lemma AdoptTaskInv(p: ProcessState, t: TaskKey, raw: string)
    requires NamesCount(p) && t !in p.tasks
    ensures NamesCount(AdoptTask(p, t, raw))
  {
    var name := Bucket(p.names, raw);
    var v := CountJoined(EntryOf(p.names, name));
    FewNamesBucket(p.names, raw, v);
    TotalsUpdate(p.names, p.created, p.exited, |p.tasks|, name, v);
    ActiveInsert(p.tasks, p.names, t, name, v);
  }

  lemma DropTaskInv(p: ProcessState, t: TaskKey)
    requires StateInv(p) && t in p.tasks
    ensures StateInv(DropTask(p, t)) && StateInv(LoseTask(p, t))
  {
    var name := p.tasks[t];
    ActivePositive(p.tasks, p.names, t);
    var v := CountExited(p.names[name]);
    TotalsUpdate(p.names, p.created, p.exited, |p.tasks|, name, v);
    ActiveRemove(p.tasks, p.names, t, v);
    assert |p.names[name := v]| == |p.names|;
    assert (p.tasks - {t}).Keys == p.tasks.Keys - {t};
  }

  lemma NamesAfterRenameCount(tasks: map<TaskKey, string>, names: map<string, NameState>, created: nat, exited: nat, t: TaskKey, raw: string, name: string)
    requires ActiveCounts(tasks, names) && Totals(names, created, exited, |tasks|) && t in tasks && tasks[t] != name
    ensures var r := NamesAfterRename(names, tasks[t], name);
            && ActiveCounts(tasks[t := name], r) && Totals(r, created, exited, |tasks|)
            && (FewNames(names) && name == Bucket(names, raw) ==> FewNames(r))
  {
    var was := tasks[t];
    ActivePositive(tasks, names, t);
    var v := CountLeft(names[was]);
    TotalsUpdate(names, created, exited, |tasks|, was, v);
    ActiveRemove(tasks, names, t, v);
    var fewer, left := tasks - {t}, names[was := v];
    assert left.Keys == names.Keys;
    assert fewer.Keys == tasks.Keys - {t};
    var w := CountJoined(EntryOf(left, name));
    TotalsUpdate(left, created, exited, |fewer|, name, w);
    ActiveInsert(fewer, left, t, name, w);
    assert fewer[t := name] == tasks[t := name];
    if FewNames(names) && name == Bucket(names, raw) {
      FewNamesBucket(names, raw, w);
      assert |left[name := w]| == |names[name := w]|;
    }
  }

  lemma RenameTaskInv(p: ProcessState, t: TaskKey, raw: string)
    requires StateInv(p) && t in p.tasks
    ensures StateInv(RenameTask(p, t, raw))
    ensures RenameTask(p, t, raw).tasks.Keys == p.tasks.Keys
  {
    var name := Bucket(p.names, raw);
    if p.tasks[t] != name {
      NamesAfterRenameCount(p.tasks, p.names, p.created, p.exited, t, raw, name);
      assert p.tasks[t := name].Keys == p.tasks.Keys;
    }
  }

  function Zero(n: NameState): nat { 0 }

  lemma ExitNames(tasks: map<TaskKey, string>, names: map<string, NameState>)
    requires ActiveCounts(tasks, names)
    ensures var r := NamesAfterExit(names, tasks);
            && r.Keys == names.Keys
            && forall n :: n in names ==> r[n] == NameState(names[n].created, names[n].exited + names[n].active, 0)
  {}

  lemma ExitTotals(names: map<string, NameState>, created: nat, exited: nat, active: nat, r: map<string, NameState>)
    requires Totals(names, created, exited, active)
    requires r.Keys == names.Keys
    requires forall n :: n in names ==> r[n] == NameState(names[n].created, names[n].exited + names[n].active, 0)
    ensures Totals(r, created, exited + active, 0)
  {
    SumSplit(r, CreatedOf, names, CreatedOf, Zero);
    SumSplit(r, ExitedOf, names, ExitedOf, ActiveOf);
    SumZero(names, Zero);
    SumZero(r, ActiveOf);
  }

  lemma RetireInv(p: ProcessState)
    requires StateInv(p)
    ensures StateInv(Retire(p))
  {
    var r := NamesAfterExit(p.names, p.tasks);
    ExitNames(p.tasks, p.names);
    ExitTotals(p.names, p.created, p.exited, |p.tasks|, r);
    assert |r| == |r.Keys| == |p.names.Keys| == |p.names|;
    forall n | n in r ensures |KeysOf<TaskKey, string>(map[], n)| == 0 {
      assert KeysOf<TaskKey, string>(map[], n) == {};
    }
  }

  lemma FlushedInv(p: ProcessState)
    requires StateInv(p)
    ensures StateInv(Flushed(p))
  {
    var names := Flushed(p).names;
    assert names.Keys == p.names.Keys;
    SumZero(names, CreatedOf);
    SumZero(names, ExitedOf);
    SumZero(p.names, Zero);
    SumSplit(names, ActiveOf, p.names, ActiveOf, Zero);
  }

  // ---------------------------------------------------------------- the index

  /** Every index entry names a task that is there, and every task is indexed, under its own locator. */
  ghost predicate Indexed(states: map<ProcessKey, ProcessState>, index: Index) {
    && (forall l :: l in index ==>
          && index[l].0.tgid == l.0 && index[l].1.tid == l.1
          && index[l].0 in states && index[l].1 in states[index[l].0].tasks)
    && (forall k, t :: k in states && t in states[k].tasks ==>
          (k.tgid, t.tid) in index && index[(k.tgid, t.tid)] == (k, t))
  }

  lemma IndexedAt(states: map<ProcessKey, ProcessState>, index: Index, l: Locator)
    requires Indexed(states, index) && l in index
    ensures var (k, t) := index[l]; k.tgid == l.0 && t.tid == l.1 && k in states && t in states[k].tasks
  {}

  lemma IndexedInsert(states: map<ProcessKey, ProcessState>, index: Index, key: ProcessKey, p: ProcessState, t: TaskKey)
    requires Indexed(states, index) && key in states && (key.tgid, t.tid) !in index
    requires p.tasks.Keys == states[key].tasks.Keys + {t}
    ensures Indexed(states[key := p], index[(key.tgid, t.tid) := (key, t)])
  {
    var i := index[(key.tgid, t.tid) := (key, t)];
    forall k, u | k in states[key := p] && u in states[key := p][k].tasks
      ensures (k.tgid, u.tid) in i && i[(k.tgid, u.tid)] == (k, u)
    {
      if (k, u) != (key, t) {
        assert u in states[k].tasks;
      }
    }
  }

  lemma IndexedRemove(states: map<ProcessKey, ProcessState>, index: Index, key: ProcessKey, p: ProcessState, t: TaskKey)
    requires Indexed(states, index) && key in states && t in states[key].tasks
    requires p.tasks.Keys == states[key].tasks.Keys - {t}
    ensures Indexed(states[key := p], index - {(key.tgid, t.tid)})
  {
    var i := index - {(key.tgid, t.tid)};
    forall k, u | k in states[key := p] && u in states[key := p][k].tasks
      ensures (k.tgid, u.tid) in i && i[(k.tgid, u.tid)] == (k, u)
    {
      assert u in states[k].tasks && (k, u) != (key, t);
    }
    forall l | l in i ensures i[l].1 in states[key := p][i[l].0].tasks {
      assert index[l] != (key, t);
    }
  }

  /** A process's locators are exactly the index entries that point to it. */
  lemma OwnLocators(states: map<ProcessKey, ProcessState>, index: Index, key: ProcessKey)
    requires Indexed(states, index) && key in states
    ensures forall l :: l in index ==> (index[l].0 == key <==> l in Locators(key.tgid, states[key].tasks))
  {
    var own := Locators(key.tgid, states[key].tasks);
    forall l | l in index ensures index[l].0 == key <==> l in own {
      if l in own {
        var t :| t in states[key].tasks && l == (key.tgid, t.tid);
      }
    }
  }

  lemma IndexedRemoveState(states: map<ProcessKey, ProcessState>, index: Index, key: ProcessKey)
    requires Indexed(states, index) && key in states
    ensures Indexed(states - {key}, index - Locators(key.tgid, states[key].tasks))
  {
    OwnLocators(states, index, key);
  }

  lemma IndexedNewState(states: map<ProcessKey, ProcessState>, index: Index, key: ProcessKey, p: ProcessState)
    requires Indexed(states, index) && key !in states && p.tasks == map[]
    ensures Indexed(states[key := p], index)
  {}

  lemma IndexedSame(states: map<ProcessKey, ProcessState>, index: Index, key: ProcessKey, p: ProcessState)
    requires Indexed(states, index) && key in states && p.tasks.Keys == states[key].tasks.Keys
    ensures Indexed(states[key := p], index)
  {}

  /** Dropping all tasks of a process together with their locators. */
  lemma IndexedClear(states: map<ProcessKey, ProcessState>, index: Index, key: ProcessKey, p: ProcessState)
    requires Indexed(states, index) && key in states && p.tasks == map[]
    ensures Indexed(states[key := p], index - Locators(key.tgid, states[key].tasks))
  {
    IndexedRemoveState(states, index, key);
    var i := index - Locators(key.tgid, states[key].tasks);
    IndexedNewState(states - {key}, i, key, p);
    assert (states - {key})[key := p] == states[key := p];
  }

  // ---------------------------------------------------------------- the store

  /** One process inside the store: its key, its counters, and task generations below the next one. */
  ghost predicate Good(k: ProcessKey, p: ProcessState, next: nat) {
    && KeyOf(p.process) == k && StateInv(p) && p.activeAtStart + p.created < next
    && (forall t :: t in p.tasks ==> t.generation < next)
  }

  ghost predicate AllGood(states: map<ProcessKey, ProcessState>, next: nat) {
    forall k :: k in states ==> Good(k, states[k], next)
  }

  /** The counters of every process are exact and the index is within capacity, whatever the index points to. */
  ghost predicate Counted(s: Store) {
    |s.index| <= s.capacity && s.next >= 1 && AllGood(s.states, s.next)
  }

  ghost predicate Inv(s: Store) { Indexed(s.states, s.index) && Counted(s) }

  lemma AllGoodUpdate(states: map<ProcessKey, ProcessState>, next: nat, key: ProcessKey, p: ProcessState, later: nat)
    requires AllGood(states, next) && next <= later && Good(key, p, later)
    ensures AllGood(states[key := p], later)
  {
    var r := states[key := p];
    forall k | k in r ensures Good(k, r[k], later) {
      if k != key {
        assert Good(k, states[k], next);
      }
    }
  }

  lemma AllGoodSubset(states: map<ProcessKey, ProcessState>, next: nat, keys: set<ProcessKey>)
    requires AllGood(states, next)
    ensures AllGood(states - keys, next)
  {
    forall k | k in states - keys ensures Good(k, (states - keys)[k], next) {
      assert Good(k, states[k], next);
    }
  }

  lemma InitInv(capacity: nat)
    ensures Inv(Init(capacity))
  {}

  lemma RemoveSize(index: Index, l: set<Locator>)
    ensures |index - l| <= |index|
  {
    assert (index - l).Keys == index.Keys - l;
    SubsetSize((index - l).Keys, index.Keys);
  }

  lemma RemoveStateInv(s: Store, key: ProcessKey)
    requires Inv(s)
    ensures Inv(RemoveState(s, key)) && key !in RemoveState(s, key).states
  {
    hide Indexed;
    if key in s.states {
      IndexedRemoveState(s.states, s.index, key);
      RemoveSize(s.index, Locators(key.tgid, s.states[key].tasks));
      AllGoodSubset(s.states, s.next, {key});
    }
  }

  lemma EmptyGood(k: ProcessKey, p: ProcessState, next: nat)
    requires KeyOf(p.process) == k && next >= 1 && !p.retired && (p.complete ==> p.baseline != Unavailable)
    requires p.tasks == map[] && p.names == map[] && p.activeAtStart == p.peakActive == p.created == p.exited == 0
    ensures Good(k, p, next)
  {
    assert Totals(p.names, 0, 0, 0);
    assert |p.tasks| == 0;
  }

  lemma NewStateInv(s: Store, key: ProcessKey, attribution: nat, process: Process, generation: Generation, at: int)
    requires Inv(s) && key !in s.states && KeyOf(process) == key
    ensures Inv(s.(states := s.states[key := NewState(attribution, process, generation, at)]))
  {
    hide Indexed;
    var p := NewState(attribution, process, generation, at);
    EmptyGood(key, p, s.next);
    IndexedNewState(s.states, s.index, key, p);
    AllGoodUpdate(s.states, s.next, key, p, s.next);
  }

  lemma ProcessStartInv(s: Store, at: int, attribution: nat, process: Process, start: ProcessStart)
    requires Inv(s)
    ensures Inv(ObserveProcessStart(s, at, attribution, process, start))
  {
    hide Indexed;
    var key := KeyOf(process);
    RemoveStateInv(s, key);
    NewStateInv(RemoveState(s, key), key, attribution, process, start.generation, at);
  }

  lemma EnsureStateInv(s: Store, at: int, attribution: nat, process: Process, generation: Generation)
    requires Inv(s)
    ensures Inv(EnsureState(s, at, attribution, process, generation).0)
  {
    hide Indexed;
    var key := KeyOf(process);
    RemoveStateInv(s, key);
    NewStateInv(RemoveState(s, key), key, attribution, process, generation, at);
  }

  lemma DropGood(key: ProcessKey, p: ProcessState, t: TaskKey, next: nat)
    requires Good(key, p, next) && t in p.tasks
    ensures Good(key, DropTask(p, t), next) && DropTask(p, t).tasks.Keys == p.tasks.Keys - {t}
    ensures Good(key, LoseTask(p, t), next) && LoseTask(p, t).tasks.Keys == p.tasks.Keys - {t}
  {
    DropTaskInv(p, t);
  }

  /** Taking an indexed task out of its process and out of the index. */
  lemma RemoveTaskInv(s: Store, key: ProcessKey, t: TaskKey, p: ProcessState)
    requires Inv(s) && key in s.states && t in s.states[key].tasks
    requires Good(key, p, s.next) && p.tasks.Keys == s.states[key].tasks.Keys - {t}
    ensures Inv(s.(states := s.states[key := p], index := s.index - {(key.tgid, t.tid)}))
  {
    hide Indexed;
    IndexedRemove(s.states, s.index, key, p, t);
    RemoveSize(s.index, {(key.tgid, t.tid)});
    AllGoodUpdate(s.states, s.next, key, p, s.next);
  }

  lemma RetireReusedInv(s: Store, l: Locator)
    requires Inv(s)
    ensures Inv(RetireReused(s, l))
  {
    hide Indexed;
    if l in s.index {
      IndexedAt(s.states, s.index, l);
      var (key, t) := s.index[l];
      assert Good(key, s.states[key], s.next);
      DropGood(key, s.states[key], t, s.next);
      RemoveTaskInv(s, key, t, LoseTask(s.states[key], t));
    }
  }

  lemma AddTaskGood(key: ProcessKey, q: ProcessState, t: TaskKey, name: string, next: nat)
    requires Good(key, q, next) && !q.retired && t.generation == next
    ensures Good(key, AddTask(q, t, name), next + 1) && AddTask(q, t, name).tasks.Keys == q.tasks.Keys + {t}
  {
    AddTaskInv(q, t, name);
  }

  lemma GapInv(s: Store, key: ProcessKey, gap: Gap)
    requires Inv(s) && key in s.states
    ensures Inv(s.(states := s.states[key := s.states[key].(gaps := s.states[key].gaps + {gap})]))
  {
    hide Indexed;
    var p := s.states[key].(gaps := s.states[key].gaps + {gap});
    assert Good(key, s.states[key], s.next);
    assert Good(key, p, s.next);
    IndexedSame(s.states, s.index, key, p);
    AllGoodUpdate(s.states, s.next, key, p, s.next);
  }

  lemma PlaceTaskInv(s: Store, key: ProcessKey, task: TaskStart)
    requires Inv(s) && key in s.states && !s.states[key].retired && (key.tgid, task.tid) !in s.index
    ensures Inv(PlaceTask(s, key, task))
  {
    hide Indexed;
    if |s.index| >= s.capacity {
      GapInv(s, key, StateCapacity);
    } else {
      var t := TaskKey(task.tid, s.next, task.at);
      var p := AddTask(s.states[key], t, task.name);
      assert Good(key, s.states[key], s.next);
      AddTaskGood(key, s.states[key], t, task.name, s.next);
      IndexedInsert(s.states, s.index, key, p, t);
      AllGoodUpdate(s.states, s.next, key, p, s.next + 1);
    }
  }

  lemma StartTaskInv(s: Store, key: ProcessKey, task: TaskStart)
    requires Inv(s) && key in s.states && !s.states[key].retired
    ensures Inv(StartTask(s, key, task))
  {
    hide Indexed;
    var l := (key.tgid, task.tid);
    RetireReusedInv(s, l);
    PlaceTaskInv(RetireReused(s, l), key, task);
  }

  lemma ThreadStartInv(s: Store, at: int, attribution: nat, process: Process, generation: Generation, task: TaskStart)
    requires Inv(s)
    ensures Inv(ObserveThreadStart(s, at, attribution, process, generation, task))
  {
    hide Indexed;
    var e := EnsureState(s, at, attribution, process, generation);
    EnsureStateInv(s, at, attribution, process, generation);
    if e.1 {
      StartTaskInv(e.0, KeyOf(process), task);
    }
  }

  lemma RenameGood(key: ProcessKey, p: ProcessState, t: TaskKey, raw: string, next: nat)
    requires Good(key, p, next) && t in p.tasks
    ensures Good(key, RenameTask(p, t, raw), next) && RenameTask(p, t, raw).tasks.Keys == p.tasks.Keys
  {
    RenameTaskInv(p, t, raw);
  }

  lemma RenameInv(s: Store, l: Locator, at: nat, name: string)
    requires Inv(s)
    ensures Inv(ObserveRename(s, l, at, name))
  {
    hide Indexed;
    if l in s.index {
      IndexedAt(s.states, s.index, l);
      var (key, t) := s.index[l];
      var p := RenameTask(s.states[key], t, name);
      assert Good(key, s.states[key], s.next);
      RenameGood(key, s.states[key], t, name, s.next);
      IndexedSame(s.states, s.index, key, p);
      AllGoodUpdate(s.states, s.next, key, p, s.next);
    }
  }

  lemma ThreadExitInv(s: Store, key: ProcessKey, tid: nat, at: nat)
    requires Inv(s)
    ensures Inv(ObserveThreadExit(s, key, tid, at))
  {
    hide Indexed;
    var l := (key.tgid, tid);
    if l in s.index && s.index[l].0 == key {
      var t := s.index[l].1;
      IndexedAt(s.states, s.index, l);
      assert Good(key, s.states[key], s.next);
      DropGood(key, s.states[key], t, s.next);
      RemoveTaskInv(s, key, t, DropTask(s.states[key], t));
    }
  }

  lemma ProcessExitInv(s: Store, key: ProcessKey)
    requires Inv(s)
    ensures Inv(ObserveProcessExit(s, key))
  {
    hide Indexed;
    if key in s.states {
      var p := Retire(s.states[key]);
      assert Good(key, s.states[key], s.next);
      RetireInv(s.states[key]);
      IndexedClear(s.states, s.index, key, p);
      RemoveSize(s.index, Locators(key.tgid, s.states[key].tasks));
      AllGoodUpdate(s.states, s.next, key, p, s.next);
    }
  }

  lemma FlushedGood(k: ProcessKey, p: ProcessState, next: nat)
    requires Good(k, p, next)
    ensures Good(k, Flushed(p), next) && Flushed(p).tasks == p.tasks
  {
    FlushedInv(p);
  }

  lemma IndexedRetain(states: map<ProcessKey, ProcessState>, index: Index, r: map<ProcessKey, ProcessState>)
    requires Indexed(states, index) && r.Keys <= states.Keys
    requires forall k :: k in r ==> r[k].tasks == states[k].tasks
    requires forall k :: k in states && k !in r ==> states[k].tasks == map[]
    ensures Indexed(r, index)
  {}

  /** Flushing forgets retired processes only, and those hold no task, so no index entry is left behind. */
  lemma FlushDueInv(s: Store, now: int)
    requires Inv(s)
    ensures Inv(FlushDue(s, now))
  {
    hide Indexed;
    var r := FlushDue(s, now);
    forall k | k in r.states ensures Good(k, r.states[k], r.next) && r.states[k].tasks == s.states[k].tasks {
      assert Good(k, s.states[k], s.next);
      FlushedGood(k, s.states[k], s.next);
    }
    forall k | k in s.states && k !in r.states ensures s.states[k].tasks == map[] {
      assert Good(k, s.states[k], s.next) && s.states[k].retired;
    }
    IndexedRetain(s.states, s.index, r.states);
  }
}
