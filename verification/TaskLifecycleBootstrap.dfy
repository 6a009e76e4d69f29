/** Bootstrapping a process from its task directory: exactly when the index survives it. */
module TaskLifecycleBootstrap {
  import opened Text
  import opened Counting
  import opened ThreadWindow
  import opened TaskLifecycle
  import opened TaskLifecycleInvariant

  /**
   The listing can be seeded: no thread it would seed is indexed already, under any cgroup, and none is
   listed twice. `taken` are the locators in use; entries past the last free slot do not matter.
   */
  predicate Clear(capacity: nat, tgid: nat, taken: set<Locator>, entries: seq<DirEntry>)
    decreases |entries|
  {
    entries == [] ||
    match entries[0]
    case Unusable => Clear(capacity, tgid, taken, entries[1..])
    case Task(tid, _) =>
      if tid == tgid then Clear(capacity, tgid, taken, entries[1..])
      else |taken| >= capacity || ((tgid, tid) !in taken && Clear(capacity, tgid, taken + {(tgid, tid)}, entries[1..]))
  }

  /** A half-built process: its tasks are counted by name but not yet in the window's counters. */
  ghost predicate SeedState(key: ProcessKey, p: ProcessState, next: nat) {
    && KeyOf(p.process) == key && NamesCount(p) && p.created == p.exited == 0
    && !p.retired && p.baseline == Snapshot && |p.tasks| < next
    && (forall t :: t in p.tasks ==> t.generation < next)
  }

  /** The seeding so far, with the half-built process standing in for the finished one. */
  ghost predicate SeedInv(capacity: nat, key: ProcessKey, states: map<ProcessKey, ProcessState>, d: Seeding) {
    && key !in states && AllGood(states, d.next)
    && Indexed(states[key := d.state], d.index) && |d.index| <= capacity
    && SeedState(key, d.state, d.next)
  }

  lemma FinishGood(key: ProcessKey, p: ProcessState, next: nat)
    requires SeedState(key, p, next)
    ensures Good(key, Finish(p), next)
  {}

  lemma AllGoodLater(states: map<ProcessKey, ProcessState>, next: nat)
    requires AllGood(states, next)
    ensures AllGood(states, next + 1)
  {
    forall k | k in states ensures Good(k, states[k], next + 1) {
      assert Good(k, states[k], next);
    }
  }

  lemma SeedOneState(key: ProcessKey, d: Seeding, tid: nat, comm: Option<string>)
    requires SeedState(key, d.state, d.next)
    ensures SeedState(key, SeedOne(key, d, tid, comm).state, d.next + 1)
    ensures SeedOne(key, d, tid, comm).state.tasks.Keys == d.state.tasks.Keys + {TaskKey(tid, d.next, 0)}
  {
    var usable := comm.Some? && ValidName(comm.value);
    var p := if usable then d.state else d.state.(gaps := d.state.gaps + {SnapshotRace});
    AdoptTaskInv(p, TaskKey(tid, d.next, 0), if usable then comm.value else "unknown");
  }

  lemma SeedInsertInv(capacity: nat, key: ProcessKey, states: map<ProcessKey, ProcessState>, d: Seeding, e: Seeding, t: TaskKey)
    requires SeedInv(capacity, key, states, d) && |d.index| < capacity && (key.tgid, t.tid) !in d.index
    requires e.index == d.index[(key.tgid, t.tid) := (key, t)] && e.next == d.next + 1
    requires SeedState(key, e.state, e.next) && e.state.tasks.Keys == d.state.tasks.Keys + {t}
    ensures SeedInv(capacity, key, states, e)
  {
    hide Indexed;
    hide SeedState;
    AllGoodLater(states, d.next);
    IndexedInsert(states[key := d.state], d.index, key, e.state, t);
    Overwrite(states, key, d.state, e.state);
  }

  lemma SeedOneInv(capacity: nat, key: ProcessKey, states: map<ProcessKey, ProcessState>, d: Seeding, tid: nat, comm: Option<string>)
    requires SeedInv(capacity, key, states, d) && |d.index| < capacity && (key.tgid, tid) !in d.index
    ensures SeedInv(capacity, key, states, SeedOne(key, d, tid, comm))
  {
    SeedOneState(key, d, tid, comm);
    SeedInsertInv(capacity, key, states, d, SeedOne(key, d, tid, comm), TaskKey(tid, d.next, 0));
  }

  /** Some task's own locator points to another task. */
  ghost predicate Orphaned(states: map<ProcessKey, ProcessState>, index: Index, next: nat) {
    exists k, t :: k in states && t in states[k].tasks && t.generation < next
                   && (k.tgid, t.tid) in index && index[(k.tgid, t.tid)] != (k, t)
  }

  lemma OrphanedBySeed(capacity: nat, key: ProcessKey, states: map<ProcessKey, ProcessState>, d: Seeding, tid: nat, comm: Option<string>)
    requires SeedInv(capacity, key, states, d) && (key.tgid, tid) in d.index
    ensures var e := SeedOne(key, d, tid, comm); Orphaned(states[key := e.state], e.index, e.next)
  {
    var e := SeedOne(key, d, tid, comm);
    var (k, t) := d.index[(key.tgid, tid)];
    SeedOneState(key, d, tid, comm);
    assert k != key ==> Good(k, states[k], d.next);
    assert k in states[key := e.state] && t in states[key := e.state][k].tasks && t.generation < e.next;
    assert e.index[(k.tgid, t.tid)] != (k, t);
  }

  lemma OrphanedKept(key: ProcessKey, states: map<ProcessKey, ProcessState>, d: Seeding, tid: nat, comm: Option<string>)
    requires Orphaned(states[key := d.state], d.index, d.next)
    ensures var e := SeedOne(key, d, tid, comm); Orphaned(states[key := e.state], e.index, e.next)
  {
    var e := SeedOne(key, d, tid, comm);
    var r := states[key := d.state];
    var k, t :| k in r && t in r[k].tasks && t.generation < d.next
                && (k.tgid, t.tid) in d.index && d.index[(k.tgid, t.tid)] != (k, t);
    assert t in states[key := e.state][k].tasks;
    assert e.index[(k.tgid, t.tid)] != (k, t);
  }

  lemma GapSeed(capacity: nat, key: ProcessKey, states: map<ProcessKey, ProcessState>, d: Seeding, gap: Gap)
    ensures var e := d.(state := d.state.(gaps := d.state.gaps + {gap}));
            && (SeedInv(capacity, key, states, d) ==> SeedInv(capacity, key, states, e))
            && (Orphaned(states[key := d.state], d.index, d.next) ==> Orphaned(states[key := e.state], e.index, e.next))
  {
    var e := d.(state := d.state.(gaps := d.state.gaps + {gap}));
    var q, r := states[key := d.state], states[key := e.state];
    if SeedInv(capacity, key, states, d) {
      IndexedSame(q, d.index, key, e.state);
      Overwrite(states, key, d.state, e.state);
    }
    if Orphaned(q, d.index, d.next) {
      var k, t :| k in q && t in q[k].tasks && t.generation < d.next
                  && (k.tgid, t.tid) in d.index && d.index[(k.tgid, t.tid)] != (k, t);
      assert k in r && t in r[k].tasks;
    }
  }

  lemma {:induction false} SeedOrphaned(capacity: nat, key: ProcessKey, states: map<ProcessKey, ProcessState>, d: Seeding, entries: seq<DirEntry>)
    requires Orphaned(states[key := d.state], d.index, d.next)
    ensures var e := Seed(capacity, key, d, entries); Orphaned(states[key := e.state], e.index, e.next)
    decreases |entries|
  {
    if entries != [] {
      match entries[0]
      case Unusable =>
        GapSeed(capacity, key, states, d, SnapshotRace);
        SeedOrphaned(capacity, key, states, d.(state := d.state.(gaps := d.state.gaps + {SnapshotRace})), entries[1..]);
      case Task(tid, comm) =>
        if tid == key.tgid {
          SeedOrphaned(capacity, key, states, d, entries[1..]);
        } else if |d.index| >= capacity {
          GapSeed(capacity, key, states, d, SnapshotTruncated);
        } else {
          OrphanedKept(key, states, d, tid, comm);
          SeedOrphaned(capacity, key, states, SeedOne(key, d, tid, comm), entries[1..]);
        }
    }
  }

  /** Seeding a clear listing keeps the invariant; seeding any other leaves an orphan behind. */
  lemma {:induction false} SeedExact(capacity: nat, key: ProcessKey, states: map<ProcessKey, ProcessState>, d: Seeding, entries: seq<DirEntry>)
    requires SeedInv(capacity, key, states, d)
    ensures var e := Seed(capacity, key, d, entries);
            if Clear(capacity, key.tgid, d.index.Keys, entries) then SeedInv(capacity, key, states, e)
            else Orphaned(states[key := e.state], e.index, e.next)
    decreases |entries|
  {
    if entries != [] {
      match entries[0]
      case Unusable =>
        GapSeed(capacity, key, states, d, SnapshotRace);
        SeedExact(capacity, key, states, d.(state := d.state.(gaps := d.state.gaps + {SnapshotRace})), entries[1..]);
      case Task(tid, comm) =>
        assert |d.index| == |d.index.Keys|;
        if tid == key.tgid {
          SeedExact(capacity, key, states, d, entries[1..]);
        } else if |d.index| >= capacity {
          GapSeed(capacity, key, states, d, SnapshotTruncated);
        } else {
          SeedExactTask(capacity, key, states, d, tid, comm, entries);
        }
    }
  }

  lemma {:induction false} SeedExactTask(
    capacity: nat, key: ProcessKey, states: map<ProcessKey, ProcessState>, d: Seeding, tid: nat, comm: Option<string>, entries: seq<DirEntry>)
    requires SeedInv(capacity, key, states, d) && entries != [] && entries[0] == Task(tid, comm)
    requires tid != key.tgid && |d.index| < capacity
    ensures var e := Seed(capacity, key, SeedOne(key, d, tid, comm), entries[1..]);
            if Clear(capacity, key.tgid, d.index.Keys, entries) then SeedInv(capacity, key, states, e)
            else Orphaned(states[key := e.state], e.index, e.next)
    decreases |entries|, 0
  {
    hide SeedInv;
    hide Orphaned;
    var e := SeedOne(key, d, tid, comm);
    assert |d.index| == |d.index.Keys|;
    if (key.tgid, tid) in d.index {
      OrphanedBySeed(capacity, key, states, d, tid, comm);
      SeedOrphaned(capacity, key, states, e, entries[1..]);
    } else {
      SeedOneInv(capacity, key, states, d, tid, comm);
      assert e.index.Keys == d.index.Keys + {(key.tgid, tid)};
      SeedExact(capacity, key, states, e, entries[1..]);
    }
  }

  /** Whether bootstrapping would seed anything: the process is new and there is room for it. */
  predicate Bootstraps(s: Store, process: Process) {
    KeyOf(process) !in s.states && |s.states| < s.capacity
  }

  /** What a caller must check before bootstrapping. */
  predicate BootstrapSafe(s: Store, process: Process, listing: Option<seq<DirEntry>>) {
    Bootstraps(s, process) && listing.Some? ==> Clear(s.capacity, process.tgid, s.index.Keys, listing.value)
  }

  lemma SnapshotSeedInv(s: Store, at: int, attribution: nat, process: Process, generation: Generation)
    requires Inv(s) && KeyOf(process) !in s.states
    ensures SeedInv(s.capacity, KeyOf(process), s.states, Seeding(SnapshotState(attribution, process, generation, at), s.index, s.next))
  {
    hide Indexed;
    hide AllGood;
    var key, p := KeyOf(process), SnapshotState(attribution, process, generation, at);
    IndexedNewState(s.states, s.index, key, p);
    assert Totals(p.names, 0, 0, 0);
    assert |p.tasks| == 0;
  }

  /** Bootstrapping keeps the invariant exactly when it is safe; otherwise some task loses its index entry. */
  lemma BootstrapExact(s: Store, at: int, attribution: nat, process: Process, generation: Generation, listing: Option<seq<DirEntry>>)
    requires Inv(s)
    ensures Inv(BootstrapProcess(s, at, attribution, process, generation, listing)) <==> BootstrapSafe(s, process, listing)
  {
    var key := KeyOf(process);
    if Bootstraps(s, process) {
      var p := SnapshotState(attribution, process, generation, at);
      match listing
      case None =>
        var q := Finish(p.(baseline := Unavailable, gaps := {SnapshotPermission}));
        EmptyGood(key, q, s.next);
        IndexedNewState(s.states, s.index, key, q);
        AllGoodUpdate(s.states, s.next, key, q, s.next);
      case Some(entries) =>
        var d := Seeding(p, s.index, s.next);
        SnapshotSeedInv(s, at, attribution, process, generation);
        SeedExact(s.capacity, key, s.states, d, entries);
        SeededExact(s, key, Seed(s.capacity, key, d, entries), Clear(s.capacity, key.tgid, s.index.Keys, entries));
    }
  }

  lemma SeededExact(s: Store, key: ProcessKey, e: Seeding, clear: bool)
    requires if clear then SeedInv(s.capacity, key, s.states, e) else Orphaned(s.states[key := e.state], e.index, e.next)
    ensures Inv(s.(states := s.states[key := Finish(e.state)], index := e.index, next := e.next)) <==> clear
  {
    var q, r := s.states[key := e.state], s.states[key := Finish(e.state)];
    if clear {
      IndexedSame(q, e.index, key, Finish(e.state));
      Overwrite(s.states, key, e.state, Finish(e.state));
      FinishGood(key, e.state, e.next);
      AllGoodUpdate(s.states, e.next, key, Finish(e.state), e.next);
    } else {
      var k, t :| k in q && t in q[k].tasks && t.generation < e.next
                  && (k.tgid, t.tid) in e.index && e.index[(k.tgid, t.tid)] != (k, t);
      assert k in r && t in r[k].tasks;
      assert !Indexed(r, e.index);
    }
  }

  predicate Listed(entries: seq<DirEntry>, tid: nat) {
    exists i :: 0 <= i < |entries| && entries[i].Task? && entries[i].tid == tid
  }

  lemma ListedRest(entries: seq<DirEntry>, tid: nat)
    requires entries != []
    ensures Listed(entries, tid) <==> (entries[0].Task? && entries[0].tid == tid) || Listed(entries[1..], tid)
  {
    var rest := entries[1..];
    assert forall i :: 1 <= i < |entries| ==> entries[i] == rest[i - 1];
    if Listed(rest, tid) {
      var i :| 0 <= i < |rest| && rest[i].Task? && rest[i].tid == tid;
      assert entries[i + 1] == rest[i];
    }
  }

  /** The index after seeding a clear listing: what it had, and exactly the listed threads other than the leader,
      all of them unless the store filled up. */
  lemma {:induction false} SeedListed(capacity: nat, key: ProcessKey, d: Seeding, entries: seq<DirEntry>)
    requires Clear(capacity, key.tgid, d.index.Keys, entries)
    ensures var e := Seed(capacity, key, d, entries).index;
            && (forall l :: l in d.index ==> l in e && e[l] == d.index[l])
            && (forall l :: l in e && l !in d.index ==>
                  && e[l].0 == key && e[l].1.tid == l.1 && e[l].1.startedAt == 0
                  && l.0 == key.tgid && l.1 != key.tgid && Listed(entries, l.1))
            && (|e| < capacity ==> forall tid :: Listed(entries, tid) && tid != key.tgid ==> (key.tgid, tid) in e)
    decreases |entries|
  {
    if entries != [] {
      var rest := entries[1..];
      forall tid ensures Listed(entries, tid) <==> (entries[0].Task? && entries[0].tid == tid) || Listed(rest, tid) {
        ListedRest(entries, tid);
      }
      match entries[0]
      case Unusable =>
        SeedListed(capacity, key, d.(state := d.state.(gaps := d.state.gaps + {SnapshotRace})), rest);
      case Task(tid, comm) =>
        assert |d.index| == |d.index.Keys|;
        if tid == key.tgid {
          SeedListed(capacity, key, d, rest);
        } else if |d.index| < capacity {
          var f := SeedOne(key, d, tid, comm);
          assert f.index.Keys == d.index.Keys + {(key.tgid, tid)};
          SeedListed(capacity, key, f, rest);
        }
    }
  }

  /** A listing without repetitions is clear when nothing is indexed under the process id. */
  lemma {:induction false} FreshListingClear(capacity: nat, tgid: nat, taken: set<Locator>, entries: seq<DirEntry>)
    requires forall i, j :: 0 <= i < j < |entries| && entries[i].Task? && entries[j].Task? ==> entries[i].tid != entries[j].tid
    requires forall e :: e in entries && e.Task? && e.tid != tgid ==> (tgid, e.tid) !in taken
    ensures Clear(capacity, tgid, taken, entries)
    decreases |entries|
  {
    if entries != [] {
      var rest := entries[1..];
      assert forall i :: 0 <= i < |rest| ==> rest[i] == entries[i + 1];
      match entries[0]
      case Unusable => FreshListingClear(capacity, tgid, taken, rest);
      case Task(tid, _) =>
        if tid == tgid {
          FreshListingClear(capacity, tgid, taken, rest);
        } else {
          FreshListingClear(capacity, tgid, taken + {(tgid, tid)}, rest);
        }
    }
  }
}
