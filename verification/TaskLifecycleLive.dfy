/**
 The store's flat table of live threads, and what each observation does to it. The table is keyed by (process id,
 thread id) and says which process owns the thread, when it started and the name it is counted under; task keys,
 generations, the nested maps and the index are the store's own business.
 */
module TaskLifecycleLive {
  import opened ThreadWindow
  import opened TaskLifecycle
  import opened TaskLifecycleInvariant

  datatype Thread = Thread(key: ProcessKey, startedAt: nat, name: string)

  type Table = map<Locator, Thread>

  function ThreadAt(s: Store, l: Locator): Thread
    requires l in s.index
  {
    var (k, t) := s.index[l];
    Thread(k, t.startedAt, if k in s.states && t in s.states[k].tasks then s.states[k].tasks[t] else [])
  }

  ghost function Live(s: Store): Table {
    map l | l in s.index :: ThreadAt(s, l)
  }

  /** The table without the threads of one process. */
  function Without(m: Table, k: ProcessKey): Table {
    map l | l in m && m[l].key != k :: m[l]
  }

  lemma OwnedLive(s: Store, key: ProcessKey, own: set<Locator>)
    requires key in s.states && forall l :: l in s.index ==> (s.index[l].0 == key <==> l in own)
    ensures Live(s.(states := s.states - {key}, index := s.index - own)) == Without(Live(s), key)
  {
    var r := s.(states := s.states - {key}, index := s.index - own);
    forall l | l in r.index ensures ThreadAt(r, l) == ThreadAt(s, l) {}
  }

  lemma UnownedLive(s: Store, key: ProcessKey)
    requires forall l :: l in s.index ==> s.index[l].0 != key
    ensures Live(s) == Without(Live(s), key)
  {}

  lemma RemoveStateLive(s: Store, key: ProcessKey)
    requires Inv(s)
    ensures Live(RemoveState(s, key)) == Without(Live(s), key)
  {
    hide Indexed;
    hide AllGood;
    if key in s.states {
      OwnLocators(s.states, s.index, key);
      OwnedLive(s, key, Locators(key.tgid, s.states[key].tasks));
    } else {
      forall l | l in s.index ensures s.index[l].0 != key {
        IndexedAt(s.states, s.index, l);
      }
      UnownedLive(s, key);
    }
  }

  /** A process that has no threads can be added or replaced without the table noticing. */
  lemma UnownedStateLive(s: Store, key: ProcessKey, p: ProcessState)
    requires forall l :: l in s.index ==> s.index[l].0 != key
    ensures Live(s.(states := s.states[key := p])) == Live(s)
  {
    var r := s.(states := s.states[key := p]);
    forall l | l in s.index ensures ThreadAt(r, l) == ThreadAt(s, l) {}
  }

  lemma RemovedUnowned(s: Store, key: ProcessKey)
    requires Inv(s)
    ensures forall l :: l in RemoveState(s, key).index ==> RemoveState(s, key).index[l].0 != key
  {
    var r := RemoveState(s, key);
    RemoveStateInv(s, key);
    forall l | l in r.index ensures r.index[l].0 != key {
      IndexedAt(r.states, r.index, l);
    }
  }

  /** A process start, valid or not, ends every thread the process id and cgroup had. */
  lemma ProcessStartLive(s: Store, at: int, attribution: nat, process: Process, start: ProcessStart)
    requires Inv(s)
    ensures Live(ObserveProcessStart(s, at, attribution, process, start)) == Without(Live(s), KeyOf(process))
  {
    hide Inv;
    var key := KeyOf(process);
    RemoveStateLive(s, key);
    RemovedUnowned(s, key);
    UnownedStateLive(RemoveState(s, key), key, NewState(attribution, process, start.generation, at));
  }

  /** The threads a new generation of a process starts from: its own, or none if the generation changed. */
  ghost function Inherited(s: Store, process: Process, generation: Generation): Table {
    var key := KeyOf(process);
    if key in s.states && s.states[key].generation == generation then Live(s) else Without(Live(s), key)
  }

  lemma EnsureStateLive(s: Store, at: int, attribution: nat, process: Process, generation: Generation)
    requires Inv(s)
    ensures Live(EnsureState(s, at, attribution, process, generation).0) == Inherited(s, process, generation)
  {
    hide Inv;
    var key := KeyOf(process);
    RemoveStateLive(s, key);
    RemovedUnowned(s, key);
    UnownedStateLive(RemoveState(s, key), key, NewState(attribution, process, generation, at));
  }

  /** Changing one process's names and counters but not its tasks, and removing one locator. */
  lemma RemoveTaskLive(s: Store, key: ProcessKey, t: TaskKey, p: ProcessState)
    requires Inv(s) && key in s.states && t in s.states[key].tasks && p.tasks == s.states[key].tasks - {t}
    ensures Live(s.(states := s.states[key := p], index := s.index - {(key.tgid, t.tid)})) == Live(s) - {(key.tgid, t.tid)}
  {
    hide Indexed;
    hide StateInv;
    var r := s.(states := s.states[key := p], index := s.index - {(key.tgid, t.tid)});
    forall l | l in r.index ensures ThreadAt(r, l) == ThreadAt(s, l) {
      IndexedAt(s.states, s.index, l);
      assert s.index[l] != (key, t);
    }
  }

  lemma RetireReusedLive(s: Store, l: Locator)
    requires Inv(s)
    ensures Live(RetireReused(s, l)) == Live(s) - {l}
  {
    hide Inv;
    if l in s.index {
      assert Inv(s) && Indexed(s.states, s.index) by { InvIndexed(s); }
      IndexedAt(s.states, s.index, l);
      var (k, t) := s.index[l];
      RemoveTaskLive(s, k, t, LoseTask(s.states[k], t));
    } else {
      assert Live(s) - {l} == Live(s);
    }
  }

  lemma InvIndexed(s: Store)
    requires Inv(s)
    ensures Indexed(s.states, s.index)
  {}

  /** A task that no locator points to yet joins the table. */
  lemma JoinLive(s: Store, key: ProcessKey, p: ProcessState, t: TaskKey, name: string, next: nat)
    requires key in s.states && t !in s.states[key].tasks && p.tasks == s.states[key].tasks[t := name]
    requires forall l :: l in s.index ==> s.index[l].0 in s.states && s.index[l].1 in s.states[s.index[l].0].tasks
    ensures Live(Store(s.capacity, s.states[key := p], s.index[(key.tgid, t.tid) := (key, t)], next))
         == Live(s)[(key.tgid, t.tid) := Thread(key, t.startedAt, name)]
  {
    var r := Store(s.capacity, s.states[key := p], s.index[(key.tgid, t.tid) := (key, t)], next);
    forall m | m in s.index && m != (key.tgid, t.tid) ensures ThreadAt(r, m) == ThreadAt(s, m) {}
  }

  /** Counters, gaps and flags of a process are not in the table. */
  lemma RetaskLive(s: Store, key: ProcessKey, p: ProcessState)
    requires key in s.states && p.tasks == s.states[key].tasks
    ensures Live(s.(states := s.states[key := p])) == Live(s)
  {
    var r := s.(states := s.states[key := p]);
    forall l | l in s.index ensures ThreadAt(r, l) == ThreadAt(s, l) {}
  }

  lemma PlaceTaskLive(s: Store, key: ProcessKey, task: TaskStart)
    requires Inv(s) && key in s.states && (key.tgid, task.tid) !in s.index
    ensures Live(PlaceTask(s, key, task))
         == if |s.index| >= s.capacity then Live(s)
            else Live(s)[(key.tgid, task.tid) := Thread(key, task.at, Bucket(s.states[key].names, task.name))]
  {
    hide Indexed;
    hide StateInv;
    hide Live;
    if |s.index| >= s.capacity {
      RetaskLive(s, key, s.states[key].(gaps := s.states[key].gaps + {StateCapacity}));
    } else {
      forall l | l in s.index ensures s.index[l].0 in s.states && s.index[l].1 in s.states[s.index[l].0].tasks {
        IndexedAt(s.states, s.index, l);
      }
      assert Good(key, s.states[key], s.next);
      var t := TaskKey(task.tid, s.next, task.at);
      JoinLive(s, key, AddTask(s.states[key], t, task.name), t, Bucket(s.states[key].names, task.name), s.next + 1);
    }
  }

  lemma StartTaskLive(s: Store, key: ProcessKey, task: TaskStart)
    requires Inv(s) && key in s.states
    ensures var l, was, now := (key.tgid, task.tid), Live(s), Live(StartTask(s, key, task));
            if l in was && was[l].startedAt >= task.at then now == was
            else if |was - {l}| >= s.capacity then now == was - {l}
            else now == was[l := Thread(key, task.at, Bucket(RetireReused(s, l).states[key].names, task.name))]
  {
    hide Inv;
    var l, was := (key.tgid, task.tid), Live(s);
    var r := RetireReused(s, l);
    RetireReusedInv(s, l);
    RetireReusedLive(s, l);
    PlaceTaskLive(r, key, task);
    assert Live(r).Keys == r.index.Keys;
    assert |was - {l}| == |r.index|;
    Relearn(was, l, Thread(key, task.at, Bucket(r.states[key].names, task.name)));
  }

  /**
   A thread start is recorded unless the process cannot take threads or the table already has this thread
   id with the same or a later start. A reused thread id loses its old thread first, full or not.
   */
  lemma ThreadStartLive(s: Store, at: int, attribution: nat, process: Process, generation: Generation, task: TaskStart)
    requires Inv(s)
    ensures var (e, ok) := EnsureState(s, at, attribution, process, generation);
            var key, l, was := KeyOf(process), (process.tgid, task.tid), Inherited(s, process, generation);
            var now := Live(ObserveThreadStart(s, at, attribution, process, generation, task));
            if !ok || (l in was && was[l].startedAt >= task.at) then now == was
            else if |was - {l}| >= s.capacity then now == was - {l}
            else now == was[l := Thread(key, task.at, Bucket(RetireReused(e, l).states[key].names, task.name))]
  {
    hide Inv;
    hide Live;
    hide StartTask;
    var e := EnsureState(s, at, attribution, process, generation);
    EnsureStateInv(s, at, attribution, process, generation);
    EnsureStateLive(s, at, attribution, process, generation);
    if e.1 {
      StartTaskLive(e.0, KeyOf(process), task);
      assert e.0.capacity == s.capacity;
    }
  }

  lemma Relearn(m: Table, l: Locator, v: Thread)
    ensures (m - {l})[l := v] == m[l := v]
  {}

  /** A rename that is not older than the thread changes the name it is counted under, and nothing else. */
  lemma RenameLive(s: Store, l: Locator, seen: nat, name: string)
    requires Inv(s)
    ensures var was, now := Live(s), Live(ObserveRename(s, l, seen, name));
            if l in was && seen >= was[l].startedAt
            then now == was[l := was[l].(name := Bucket(s.states[was[l].key].names, name))]
            else now == was
  {
    hide Indexed;
    hide AllGood;
    hide NamesAfterRename;
    var r := ObserveRename(s, l, seen, name);
    if l in s.index {
      IndexedAt(s.states, s.index, l);
      var (k, t) := s.index[l];
      forall m | m in s.index && m != l ensures ThreadAt(r, m) == ThreadAt(s, m) {
        IndexedAt(s.states, s.index, m);
      }
    }
  }

  /** A thread exit removes exactly the thread of that process, if it started no later. */
  lemma ThreadExitLive(s: Store, key: ProcessKey, tid: nat, seen: nat)
    requires Inv(s)
    ensures var was, l := Live(s), (key.tgid, tid);
            var now := Live(ObserveThreadExit(s, key, tid, seen));
            if l in was && was[l].key == key && was[l].startedAt <= seen then now == was - {l} else now == was
  {
    hide Inv;
    var l := (key.tgid, tid);
    if l in s.index && s.index[l].0 == key {
      InvIndexed(s);
      IndexedAt(s.states, s.index, l);
      var t := s.index[l].1;
      RemoveTaskLive(s, key, t, DropTask(s.states[key], t));
    }
  }

  /** A process exit removes exactly the threads of that process. */
  lemma ProcessExitLive(s: Store, key: ProcessKey)
    requires Inv(s)
    ensures Live(ObserveProcessExit(s, key)) == Without(Live(s), key)
  {
    hide Indexed;
    hide StateInv;
    RemoveStateLive(s, key);
    if key in s.states {
      RemovedUnowned(s, key);
      UnownedStateLive(RemoveState(s, key), key, Retire(s.states[key]));
      assert (s.states - {key})[key := Retire(s.states[key])] == s.states[key := Retire(s.states[key])];
    }
  }

  /** Reporting windows changes no thread. */
  lemma FlushDueLive(s: Store, now: int)
    requires Inv(s)
    ensures Live(FlushDue(s, now)) == Live(s)
  {
    hide Indexed;
    hide NamesCount;
    var r := FlushDue(s, now);
    forall l | l in s.index ensures ThreadAt(r, l) == ThreadAt(s, l) {
      IndexedAt(s.states, s.index, l);
      assert Good(s.index[l].0, s.states[s.index[l].0], s.next);
    }
  }
}
