/** The counters of the thread lifecycle store: kept exact by every step of every run, safe bootstraps or not. */
module TaskLifecycleCounters {
  import opened Text
  import opened ThreadWindow
  import opened TaskLifecycle
  import opened TaskLifecycleInvariant
  import opened TaskLifecycleBootstrap

  lemma CountedGood(s: Store, k: ProcessKey)
    requires Counted(s) && k in s.states
    ensures Good(k, s.states[k], s.next)
  {}

  /** Replacing one process by a well-kept one. */
  lemma ReplaceCounted(s: Store, key: ProcessKey, p: ProcessState, index: Index, later: nat)
    requires Counted(s) && s.next <= later && Good(key, p, later) && |index| <= s.capacity
    ensures Counted(s.(states := s.states[key := p], index := index, next := later))
  {
    AllGoodUpdate(s.states, s.next, key, p, later);
  }

  lemma RemoveStateCounted(s: Store, key: ProcessKey)
    requires Counted(s)
    ensures Counted(RemoveState(s, key))
  {
    if key in s.states {
      RemoveSize(s.index, Locators(key.tgid, s.states[key].tasks));
      AllGoodSubset(s.states, s.next, {key});
    }
  }

  lemma NewStateCounted(s: Store, attribution: nat, process: Process, generation: Generation, at: int)
    requires Counted(s)
    ensures Counted(s.(states := s.states[KeyOf(process) := NewState(attribution, process, generation, at)]))
  {
    var p := NewState(attribution, process, generation, at);
    EmptyGood(KeyOf(process), p, s.next);
    ReplaceCounted(s, KeyOf(process), p, s.index, s.next);
  }

  lemma ProcessStartCounted(s: Store, at: int, attribution: nat, process: Process, start: ProcessStart)
    requires Counted(s)
    ensures Counted(ObserveProcessStart(s, at, attribution, process, start))
  {
    hide Counted;
    RemoveStateCounted(s, KeyOf(process));
    NewStateCounted(RemoveState(s, KeyOf(process)), attribution, process, start.generation, at);
  }

  lemma EnsureStateCounted(s: Store, at: int, attribution: nat, process: Process, generation: Generation)
    requires Counted(s)
    ensures Counted(EnsureState(s, at, attribution, process, generation).0)
  {
    hide Counted;
    RemoveStateCounted(s, KeyOf(process));
    NewStateCounted(RemoveState(s, KeyOf(process)), attribution, process, generation, at);
  }

  /** Whether or not the indexed task is still there. */
  lemma RetireReusedCounted(s: Store, l: Locator)
    requires Counted(s)
    ensures Counted(RetireReused(s, l))
  {
    if l in s.index {
      RemoveSize(s.index, {l});
      var (key, t) := s.index[l];
      if key in s.states && t in s.states[key].tasks {
        CountedGood(s, key);
        DropGood(key, s.states[key], t, s.next);
        ReplaceCounted(s, key, LoseTask(s.states[key], t), s.index - {l}, s.next);
      }
    }
  }

  lemma GapGood(key: ProcessKey, p: ProcessState, next: nat, gap: Gap)
    requires Good(key, p, next)
    ensures Good(key, p.(gaps := p.gaps + {gap}), next)
  {}

  lemma AddedSize(index: Index, l: Locator, v: (ProcessKey, TaskKey))
    ensures |index[l := v]| <= |index| + 1
  {
    assert index[l := v].Keys == index.Keys + {l};
    assert |index[l := v]| == |index[l := v].Keys| && |index| == |index.Keys|;
  }

  lemma GapCounted(s: Store, key: ProcessKey, gap: Gap)
    requires Counted(s) && key in s.states
    ensures Counted(s.(states := s.states[key := s.states[key].(gaps := s.states[key].gaps + {gap})]))
  {
    hide Good;
    CountedGood(s, key);
    GapGood(key, s.states[key], s.next, gap);
    ReplaceCounted(s, key, s.states[key].(gaps := s.states[key].gaps + {gap}), s.index, s.next);
  }

  lemma AddTaskCounted(s: Store, key: ProcessKey, t: TaskKey, name: string)
    requires Counted(s) && key in s.states && !s.states[key].retired && t.generation == s.next && |s.index| < s.capacity
    ensures Counted(s.(states := s.states[key := AddTask(s.states[key], t, name)],
                       index := s.index[(key.tgid, t.tid) := (key, t)], next := s.next + 1))
  {
    hide Good;
    hide AddTask;
    CountedGood(s, key);
    AddTaskGood(key, s.states[key], t, name, s.next);
    AddedSize(s.index, (key.tgid, t.tid), (key, t));
    ReplaceCounted(s, key, AddTask(s.states[key], t, name), s.index[(key.tgid, t.tid) := (key, t)], s.next + 1);
  }

  lemma PlaceTaskCounted(s: Store, key: ProcessKey, task: TaskStart)
    requires Counted(s) && key in s.states && !s.states[key].retired
    ensures Counted(PlaceTask(s, key, task))
  {
    hide AllGood;
    hide AddTask;
    if |s.index| >= s.capacity {
      GapCounted(s, key, StateCapacity);
    } else {
      AddTaskCounted(s, key, TaskKey(task.tid, s.next, task.at), task.name);
    }
  }

  lemma ThreadStartCounted(s: Store, at: int, attribution: nat, process: Process, generation: Generation, task: TaskStart)
    requires Counted(s)
    ensures Counted(ObserveThreadStart(s, at, attribution, process, generation, task))
  {
    hide Counted;
    hide PlaceTask;
    var e, l := EnsureState(s, at, attribution, process, generation), (process.tgid, task.tid);
    EnsureStateCounted(s, at, attribution, process, generation);
    if e.1 {
      RetireReusedCounted(e.0, l);
      PlaceTaskCounted(RetireReused(e.0, l), KeyOf(process), task);
    }
  }

  lemma RenameCounted(s: Store, l: Locator, at: nat, name: string)
    requires Counted(s)
    ensures Counted(ObserveRename(s, l, at, name))
  {
    if l in s.index && s.index[l].0 in s.states {
      var (key, t) := s.index[l];
      CountedGood(s, key);
      if t in s.states[key].tasks {
        RenameGood(key, s.states[key], t, name, s.next);
      }
      ReplaceCounted(s, key, RenameTask(s.states[key], t, name), s.index, s.next);
    }
  }

  lemma ThreadExitCounted(s: Store, key: ProcessKey, tid: nat, at: nat)
    requires Counted(s)
    ensures Counted(ObserveThreadExit(s, key, tid, at))
  {
    hide AllGood;
    hide DropTask;
    var l := (key.tgid, tid);
    if l in s.index && key in s.states {
      CountedGood(s, key);
      var p, t := s.states[key], s.index[l].1;
      if t in p.tasks {
        RemoveSize(s.index, {l});
        DropGood(key, p, t, s.next);
        ReplaceCounted(s, key, DropTask(p, t), s.index - {l}, s.next);
      } else {
        GapCounted(s, key, StateCapacity);
      }
    }
  }

  lemma ProcessExitCounted(s: Store, key: ProcessKey)
    requires Counted(s)
    ensures Counted(ObserveProcessExit(s, key))
  {
    if key in s.states {
      CountedGood(s, key);
      RetireInv(s.states[key]);
      RemoveSize(s.index, Locators(key.tgid, s.states[key].tasks));
      ReplaceCounted(s, key, Retire(s.states[key]), s.index - Locators(key.tgid, s.states[key].tasks), s.next);
    }
  }

  lemma FlushDueCounted(s: Store, now: int)
    requires Counted(s)
    ensures Counted(FlushDue(s, now))
  {
    var r := FlushDue(s, now);
    forall k | k in r.states ensures Good(k, r.states[k], r.next) {
      CountedGood(s, k);
      FlushedGood(k, s.states[k], s.next);
    }
  }

  lemma GapSeedState(key: ProcessKey, p: ProcessState, next: nat, gap: Gap)
    requires SeedState(key, p, next)
    ensures SeedState(key, p.(gaps := p.gaps + {gap}), next)
  {}

  /** Seeding any listing, with repeated or already indexed threads too, keeps the half-built process exact. */
  lemma {:induction false} SeedCounted(capacity: nat, key: ProcessKey, d: Seeding, entries: seq<DirEntry>)
    requires SeedState(key, d.state, d.next) && |d.index| <= capacity
    ensures var e := Seed(capacity, key, d, entries); SeedState(key, e.state, e.next) && |e.index| <= capacity && d.next <= e.next
    decreases |entries|
  {
    hide SeedState;
    if entries != [] {
      match entries[0]
      case Unusable =>
        GapSeedState(key, d.state, d.next, SnapshotRace);
        SeedCounted(capacity, key, d.(state := d.state.(gaps := d.state.gaps + {SnapshotRace})), entries[1..]);
      case Task(tid, comm) =>
        if tid == key.tgid {
          SeedCounted(capacity, key, d, entries[1..]);
        } else if |d.index| >= capacity {
          GapSeedState(key, d.state, d.next, SnapshotTruncated);
        } else {
          SeedOneState(key, d, tid, comm);
          AddedSize(d.index, (key.tgid, tid), (key, TaskKey(tid, d.next, 0)));
          SeedCounted(capacity, key, SeedOne(key, d, tid, comm), entries[1..]);
        }
    }
  }

  lemma NewSeedState(attribution: nat, process: Process, generation: Generation, at: int, next: nat)
    requires next >= 1
    ensures SeedState(KeyOf(process), SnapshotState(attribution, process, generation, at), next)
  {
    var p := SnapshotState(attribution, process, generation, at);
    assert Totals(p.names, 0, 0, 0);
    assert |p.tasks| == 0;
  }

  lemma BootstrapCounted(s: Store, at: int, attribution: nat, process: Process, generation: Generation, listing: Option<seq<DirEntry>>)
    requires Counted(s)
    ensures Counted(BootstrapProcess(s, at, attribution, process, generation, listing))
  {
    hide Seed;
    hide SeedState;
    var key, p := KeyOf(process), SnapshotState(attribution, process, generation, at);
    if Bootstraps(s, process) {
      match listing
      case None =>
        var q := Finish(p.(baseline := Unavailable, gaps := {SnapshotPermission}));
        EmptyGood(key, q, s.next);
        ReplaceCounted(s, key, q, s.index, s.next);
      case Some(entries) =>
        var e := Seed(s.capacity, key, Seeding(p, s.index, s.next), entries);
        NewSeedState(attribution, process, generation, at, s.next);
        SeedCounted(s.capacity, key, Seeding(p, s.index, s.next), entries);
        FinishGood(key, e.state, e.next);
        ReplaceCounted(s, key, Finish(e.state), e.index, e.next);
    }
  }
}
