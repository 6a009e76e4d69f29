/** The thread lifecycle store as an object whose fields are updated in place, step by step. */
module TaskLifecycleStore {
  import opened Text
  import opened Sorting
  import opened Counting
  import opened ThreadWindow
  import opened ThreadWire
  import L = TaskLifecycle
  import opened TaskLifecycleRuns

  type Hash = seq<byte> -> seq<byte>

  /** `deterministic_window_id`. */
  function WindowId(hash: Hash, p: L.ProcessState): Uuid {
    IdOf(hash(IdPreimage(p.process, p.generation, p.windowStart)))
  }

  /** The event reports the process's window, under the identifier derived from it. */
  ghost predicate Announces(e: WindowEvent, p: L.ProcessState, hash: Hash) {
    Reports(e.window, p) && e.window.id == WindowId(hash, p) && e == EventOf(e.window)
  }

  /** Walks the name map in whatever order it comes. */
  method ListNames(m: map<string, L.NameState>) returns (names: seq<NameCount>)
    ensures L.Lists(names, m)
  {
    names := [];
    var todo := m.Keys;
    while todo != {}
      invariant todo <= m.Keys && DistinctNames(names)
      invariant forall c :: c in names ==> c.name in m && c.name !in todo && m[c.name] == L.NameState(c.created, c.exited, c.active)
      invariant forall n :: n in m && n !in todo ==> NameCount(n, m[n].created, m[n].exited, m[n].active) in names
      decreases |todo|
    {
      var n :| n in todo;
      var c := NameCount(n, m[n].created, m[n].exited, m[n].active);
      assert forall i :: 0 <= i < |names| ==> names[i] in names;
      names := names + [c];
      todo := todo - {n};
    }
  }

  method ListGaps(s: set<Gap>) returns (gaps: seq<Gap>)
    ensures L.ListsGaps(gaps, s)
  {
    gaps := [];
    var todo := s;
    while todo != {}
      invariant todo <= s && Distinct(gaps) && forall g :: g in gaps <==> g in s && g !in todo
      decreases |todo|
    {
      var g :| g in todo;
      assert forall i :: 0 <= i < |gaps| ==> gaps[i] in gaps;
      gaps := gaps + [g];
      todo := todo - {g};
    }
  }

  /** `flush` of one process: nothing before the window ends, then the report and the reset. */
  method FlushState(p: L.ProcessState, now: int, hash: Hash) returns (q: L.ProcessState, event: Option<WindowEvent>)
    ensures event.Some? <==> L.Due(p, now)
    ensures q == if L.Due(p, now) then L.Flushed(p) else p
    ensures event.Some? ==> Announces(event.value, p, hash)
  {
    q := p;
    var end := p.windowStart + WINDOW_NANOS;
    if now < end {
      return q, None;
    }
    var names := ListNames(p.names);
    var gaps := ListGaps(p.gaps);
    var id := WindowId(hash, p);
    IdNotNil(hash(IdPreimage(p.process, p.generation, p.windowStart)));
    var w := Window(
      id, p.process, p.generation, p.windowStart, end, p.created, p.exited, p.activeAtStart, |p.tasks|,
      p.peakActive, names, p.baseline, p.complete && p.gaps == {}, p.overflow, gaps);
    q := L.ResetWindow(q, end);
    event := Some(WindowEvent(id, end, p.process, w));
  }

  /** The processes outside `todo` have been flushed, and the retired ones among them collected. */
  ghost predicate FlushedSoFar(
    was: map<L.ProcessKey, L.ProcessState>, states: map<L.ProcessKey, L.ProcessState>, retired: set<L.ProcessKey>,
    todo: set<L.ProcessKey>, now: int)
  {
    && states.Keys == was.Keys
    && (forall k :: k in was ==> states[k] == if k !in todo && L.Due(was[k], now) then L.Flushed(was[k]) else was[k])
    && (forall k :: k in retired <==> k in was && k !in todo && L.Due(was[k], now) && was[k].retired)
  }

  lemma FlushNone(was: map<L.ProcessKey, L.ProcessState>, now: int)
    ensures FlushedSoFar(was, was, {}, was.Keys, now)
  {}

  lemma FlushOne(
    was: map<L.ProcessKey, L.ProcessState>, states: map<L.ProcessKey, L.ProcessState>, retired: set<L.ProcessKey>,
    todo: set<L.ProcessKey>, now: int, k: L.ProcessKey)
    requires FlushedSoFar(was, states, retired, todo, now) && k in todo && k in was
    ensures k in states && states[k] == was[k] && L.Flushed(was[k]).retired == was[k].retired
    ensures FlushedSoFar(was, states[k := if L.Due(was[k], now) then L.Flushed(was[k]) else was[k]],
                         if L.Due(was[k], now) && was[k].retired then retired + {k} else retired, todo - {k}, now)
  {}

  lemma FlushAll(s: L.Store, was: map<L.ProcessKey, L.ProcessState>, retired: set<L.ProcessKey>, now: int)
    requires FlushedSoFar(was, s.states, retired, {}, now)
    ensures s.(states := s.states - retired) == L.FlushDue(s.(states := was), now)
  {
    assert s.states - retired == L.FlushDue(s.(states := was), now).states;
  }

  class TaskLifecycleStore {
    const capacity: nat
    const hash: Hash
    var states: map<L.ProcessKey, L.ProcessState>
    var taskIndex: L.Index
    var nextTaskGeneration: nat

    ghost function View(): L.Store
      reads this
    {
      L.Store(capacity, states, taskIndex, nextTaskGeneration)
    }

    constructor (capacity: nat, hash: Hash)
      ensures View() == L.Init(capacity) && this.hash == hash
    {
      this.capacity := capacity;
      this.hash := hash;
      states, taskIndex, nextTaskGeneration := map[], map[], 1;
    }

    /** Removes the index entries of the given tasks, one by one. */
    method ForgetTasks(tgid: nat, tasks: map<L.TaskKey, string>)
      modifies this`taskIndex
      ensures taskIndex == old(taskIndex) - L.Locators(tgid, tasks)
    {
      var todo := tasks.Keys;
      while todo != {}
        invariant todo <= tasks.Keys
        invariant taskIndex == old(taskIndex) - set t | t in tasks && t !in todo :: (tgid, t.tid)
        decreases |todo|
      {
        var t :| t in todo;
        taskIndex := taskIndex - {(tgid, t.tid)};
        todo := todo - {t};
      }
    }

    method RemoveProcessState(key: L.ProcessKey)
      modifies this`states, this`taskIndex
      ensures View() == L.RemoveState(old(View()), key)
    {
      if key in states {
        var state := states[key];
        states := states - {key};
        ForgetTasks(key.tgid, state.tasks);
      }
    }

    /** The event carries the start itself; nothing is reported for an invalid start. */
    method ObserveProcessStart(at: int, attribution: nat, process: Process, start: L.ProcessStart)
      returns (event: Option<(Process, L.ProcessStart)>)
      modifies this
      ensures View() == L.ObserveProcessStart(old(View()), at, attribution, process, start)
      ensures event == if start.Valid() then Some((process, start)) else None
    {
      var key := L.KeyOf(process);
      RemoveProcessState(key);
      if !start.Valid() {
        return None;
      }
      states := states[key := L.NewState(attribution, process, start.generation, at)];
      return Some((process, start));
    }

    method EnsureState(at: int, attribution: nat, process: Process, generation: Generation) returns (ok: bool)
      modifies this
      ensures (View(), ok) == L.EnsureState(old(View()), at, attribution, process, generation)
    {
      var key := L.KeyOf(process);
      if key in states {
        var state := states[key];
        if state.generation == generation {
          return !state.retired;
        }
        states := states - {key};
        ForgetTasks(key.tgid, state.tasks);
      }
      if |states| >= capacity {
        return false;
      }
      states := states[key := L.NewState(attribution, process, generation, at)];
      return true;
    }

    method NextTaskKey(tid: nat, startedAt: nat) returns (t: L.TaskKey)
      modifies this`nextTaskGeneration
      ensures t == L.TaskKey(tid, old(nextTaskGeneration), startedAt) && nextTaskGeneration == old(nextTaskGeneration) + 1
    {
      t := L.TaskKey(tid, nextTaskGeneration, startedAt);
      nextTaskGeneration := nextTaskGeneration + 1;
    }

    method RetireReusedTask(l: L.Locator)
      modifies this`states, this`taskIndex
      ensures View() == L.RetireReused(old(View()), l)
    {
      if l !in taskIndex {
        return;
      }
      var (key, t) := taskIndex[l];
      taskIndex := taskIndex - {l};
      if key !in states || t !in states[key].tasks {
        return;
      }
      var state := states[key];
      var name := state.tasks[t];
      state := state.(tasks := state.tasks - {t});
      if name in state.names {
        state := state.(names := state.names[name := L.CountExited(state.names[name])]);
      }
      state := state.(exited := state.exited + 1);
      state := state.(gaps := state.gaps + {KernelLoss});
      state := state.(complete := false);
      states := states[key := state];
    }

    method ObserveThreadStart(at: int, attribution: nat, process: Process, generation: Generation, task: L.TaskStart)
      modifies this
      ensures View() == L.ObserveThreadStart(old(View()), at, attribution, process, generation, task)
    {
      hide L.PlaceTask;
      hide L.RetireReused;
      var key := L.KeyOf(process);
      var ok := EnsureState(at, attribution, process, generation);
      if !ok {
        return;
      }
      var l := (key.tgid, task.tid);
      if l in taskIndex && taskIndex[l].1.startedAt >= task.at {
        return;
      }
      RetireReusedTask(l);
      PlaceTask(key, task);
    }

    /** The tail of `observe_thread_start`. */
    method PlaceTask(key: L.ProcessKey, task: L.TaskStart)
      requires key in states
      modifies this
      ensures View() == L.PlaceTask(old(View()), key, task)
    {
      var l := (key.tgid, task.tid);
      if |taskIndex| >= capacity {
        states := states[key := states[key].(gaps := states[key].gaps + {StateCapacity})];
        return;
      }
      var t := NextTaskKey(task.tid, task.at);
      var state := states[key];
      var name := L.Bucket(state.names, task.name);
      state := state.(overflow := L.OverflowAfter(state, task.name));
      state := state.(tasks := state.tasks[t := name]);
      state := state.(created := state.created + 1);
      state := state.(names := state.names[name := L.CountCreated(L.EntryOf(state.names, name))]);
      state := state.(peakActive := Max(state.peakActive, |state.tasks|));
      states := states[key := state];
      taskIndex := taskIndex[l := (key, t)];
    }

    /** `seed_snapshot`: fills the state from the directory until the store is full. */
    method SeedSnapshot(key: L.ProcessKey, start: L.ProcessState, entries: seq<L.DirEntry>) returns (state: L.ProcessState)
      modifies this`taskIndex, this`nextTaskGeneration
      ensures L.Seeding(state, taskIndex, nextTaskGeneration)
           == L.Seed(capacity, key, L.Seeding(start, old(taskIndex), old(nextTaskGeneration)), entries)
    {
      hide L.SeedOne;
      state := start;
      for i := 0 to |entries|
        invariant L.Seed(capacity, key, L.Seeding(state, taskIndex, nextTaskGeneration), entries[i..])
               == L.Seed(capacity, key, L.Seeding(start, old(taskIndex), old(nextTaskGeneration)), entries)
      {
        assert entries[i..][1..] == entries[i + 1..];
        match entries[i]
        case Unusable =>
          state := state.(gaps := state.gaps + {SnapshotRace});
        case Task(tid, comm) =>
          if tid != key.tgid {
            if |taskIndex| >= capacity {
              state := state.(gaps := state.gaps + {SnapshotTruncated});
              return;
            }
            state := SeedTask(key, state, tid, comm);
          }
      }
      assert entries[|entries|..] == [];
    }

    method SeedTask(key: L.ProcessKey, start: L.ProcessState, tid: nat, comm: Option<string>) returns (state: L.ProcessState)
      modifies this`taskIndex, this`nextTaskGeneration
      ensures L.Seeding(state, taskIndex, nextTaskGeneration)
           == L.SeedOne(key, L.Seeding(start, old(taskIndex), old(nextTaskGeneration)), tid, comm)
    {
      state := start;
      var raw := "unknown";
      if comm.Some? && ValidName(comm.value) {
        raw := comm.value;
      } else {
        state := state.(gaps := state.gaps + {SnapshotRace});
      }
      var name := L.Bucket(state.names, raw);
      state := state.(overflow := L.OverflowAfter(state, raw));
      var t := NextTaskKey(tid, 0);
      state := state.(tasks := state.tasks[t := name]);
      state := state.(names := state.names[name := L.CountJoined(L.EntryOf(state.names, name))]);
      taskIndex := taskIndex[(key.tgid, tid) := (key, t)];
    }

    method BootstrapProcess(
      at: int, attribution: nat, process: Process, generation: Generation, listing: Option<seq<L.DirEntry>>)
      modifies this
      ensures View() == L.BootstrapProcess(old(View()), at, attribution, process, generation, listing)
    {
      var key := L.KeyOf(process);
      if key in states || |states| >= capacity {
        return;
      }
      var state := L.NewState(attribution, process, generation, at);
      state := state.(baseline := Snapshot);
      match listing {
        case Some(entries) =>
          state := SeedSnapshot(key, state, entries);
        case None =>
          state := state.(baseline := Unavailable);
          state := state.(gaps := state.gaps + {SnapshotPermission});
          assert {} + {SnapshotPermission} == {SnapshotPermission};
      }
      state := state.(activeAtStart := |state.tasks|);
      state := state.(peakActive := state.activeAtStart);
      state := state.(complete := state.gaps == {});
      states := states[key := state];
    }

    method ObserveRename(l: L.Locator, seen: nat, name: string)
      modifies this`states
      ensures View() == L.ObserveRename(old(View()), l, seen, name)
    {
      if l !in taskIndex {
        return;
      }
      var (key, t) := taskIndex[l];
      if seen < t.startedAt || key !in states {
        return;
      }
      var state := states[key];
      var renamed := L.Bucket(state.names, name);
      state := state.(overflow := L.OverflowAfter(state, name));
      if t in state.tasks && state.tasks[t] != renamed {
        var was := state.tasks[t];
        if was in state.names {
          state := state.(names := state.names[was := L.CountLeft(state.names[was])]);
        }
        state := state.(names := state.names[renamed := L.CountJoined(L.EntryOf(state.names, renamed))]);
        state := state.(tasks := state.tasks[t := renamed]);
      }
      states := states[key := state];
    }

    method ObserveThreadExit(cgroup: nat, tgid: nat, tid: nat, seen: nat)
      modifies this`states, this`taskIndex
      ensures View() == L.ObserveThreadExit(old(View()), L.ProcessKey(cgroup, tgid), tid, seen)
    {
      var key, l := L.ProcessKey(cgroup, tgid), (tgid, tid);
      if l !in taskIndex {
        return;
      }
      var (indexed, t) := taskIndex[l];
      if indexed != key || seen < t.startedAt || key !in states {
        return;
      }
      var state := states[key];
      if t !in state.tasks {
        states := states[key := state.(gaps := state.gaps + {StateCapacity})];
        return;
      }
      var name := state.tasks[t];
      state := state.(tasks := state.tasks - {t});
      state := state.(exited := state.exited + 1);
      if name in state.names {
        state := state.(names := state.names[name := L.CountExited(state.names[name])]);
      }
      states := states[key := state];
      taskIndex := taskIndex - {l};
    }

    method ObserveProcessExit(cgroup: nat, tgid: nat)
      modifies this`states, this`taskIndex
      ensures View() == L.ObserveProcessExit(old(View()), L.ProcessKey(cgroup, tgid))
    {
      var key := L.ProcessKey(cgroup, tgid);
      if key !in states {
        return;
      }
      var start := states[key];
      var names := ExitNames(start.names, start.tasks);
      var state := start.(retired := true, names := names, exited := start.exited + |start.tasks|);
      if start.tasks != map[] {
        state := state.(gaps := state.gaps + {KernelLoss}, complete := false);
      }
      ForgetTasks(tgid, start.tasks);
      state := state.(tasks := map[]);
      states := states[key := state];
    }

    /** `flush_due`; `keys` names, in the order of the events, the process each one reports. */
    method FlushDue(now: int) returns (events: seq<WindowEvent>, ghost keys: seq<L.ProcessKey>)
      modifies this`states
      ensures View() == L.FlushDue(old(View()), now)
      ensures |events| == |keys| && Distinct(keys)
      ensures forall k :: k in keys <==> k in old(states) && L.Due(old(states)[k], now)
      ensures forall i :: 0 <= i < |keys| ==> Announces(events[i], old(states)[keys[i]], hash)
    {
      hide Announces;
      hide FlushedSoFar;
      events, keys := [], [];
      var retired: set<L.ProcessKey> := {};
      var todo := states.Keys;
      ghost var was := states;
      FlushNone(was, now);
      while todo != {}
        invariant todo <= was.Keys && FlushedSoFar(was, states, retired, todo, now)
        invariant |events| == |keys| && Distinct(keys)
        invariant forall k :: k in keys <==> k in was && k !in todo && L.Due(was[k], now)
        invariant forall i :: 0 <= i < |keys| ==> Announces(events[i], was[keys[i]], hash)
        decreases |todo|
      {
        var k :| k in todo;
        FlushOne(was, states, retired, todo, now, k);
        var state, event := FlushState(states[k], now, hash);
        states := states[k := state];
        if event.Some? {
          assert forall i :: 0 <= i < |keys| ==> keys[i] in keys;
          events, keys := events + [event.value], keys + [k];
          if state.retired {
            retired := retired + {k};
          }
        }
        todo := todo - {k};
      }
      FlushAll(View(), was, retired, now);
      states := states - retired;
    }
  }

  /** The loop of `observe_process_exit` over the remaining tasks, on the name counters. */
  method ExitNames(start: map<string, L.NameState>, tasks: map<L.TaskKey, string>) returns (names: map<string, L.NameState>)
    ensures names == L.NamesAfterExit(start, tasks)
  {
    hide L.NamesAfterExit;
    names := start;
    var todo := tasks.Keys;
    ghost var gone: map<L.TaskKey, string> := map[];
    NoneGone(start);
    while todo != {}
      invariant todo <= tasks.Keys && gone == map t | t in tasks && t !in todo :: tasks[t]
      invariant names == L.NamesAfterExit(start, gone)
      decreases |todo|
    {
      var t :| t in todo;
      var name := tasks[t];
      OneMoreGone(start, gone, t, name);
      if name in names {
        names := names[name := L.CountExited(names[name])];
      }
      gone := gone[t := name];
      todo := todo - {t};
    }
    assert gone == tasks;
  }

  lemma NoneGone(start: map<string, L.NameState>)
    ensures L.NamesAfterExit(start, map[]) == start
  {
    forall n | n in start ensures L.NamesAfterExit(start, map[])[n] == start[n] {
      assert KeysOf<L.TaskKey, string>(map[], n) == {};
    }
  }

  lemma OneMoreGone(start: map<string, L.NameState>, gone: map<L.TaskKey, string>, t: L.TaskKey, name: string)
    requires t !in gone
    ensures var names := L.NamesAfterExit(start, gone);
            var more := L.NamesAfterExit(start, gone[t := name]);
            more == if name in names then names[name := L.CountExited(names[name])] else names
  {
    var r := L.NamesAfterExit(start, gone[t := name]);
    forall n | n in start
      ensures r[n].exited == start[n].exited + |KeysOf(gone, n)| + if n == name then 1 else 0
      ensures r[n].active == L.SatSub(start[n].active, |KeysOf(gone, n)| + if n == name then 1 else 0)
    {
      KeysOfInsert(gone, t, name, n);
    }
  }
}
