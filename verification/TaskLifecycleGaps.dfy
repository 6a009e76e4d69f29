/**
 When a window has a gap and when it is complete, told from the operations of a run and the table of live threads: what
 was lost, refused or missed since the window, and since the process, began.
 */
module TaskLifecycleGaps {
  import opened Text
  import opened ThreadWindow
  import opened TaskLifecycle
  import opened TaskLifecycleBootstrap
  import opened TaskLifecycleRuns
  import opened TaskLifecycleLive
  import opened TaskLifecycleFlat
  import opened TaskLifecycleRefinement

  // ---------------------------------------------------------------- what an operation does

  /** A process appears under the key, new or in place of another. */
  predicate Born(f: Flat, op: Op, k: ProcessKey) {
    && k in FlatStep(f, op).procs
    && (|| k !in f.procs || (op.ProcessStarted? && KeyOf(op.process) == k)
        || (op.ThreadStarted? && KeyOf(op.process) == k && f.procs[k].generation != op.generation))
  }

  /** The process begins a window: its first, or the next one after a flush. */
  predicate Opens(f: Flat, op: Op, k: ProcessKey) {
    && k in FlatStep(f, op).procs
    && (Born(f, op, k) || (op.FlushedAt? && k in f.procs && op.now >= f.procs[k].windowStart + 60 * SECOND))
  }

  /** The thread at `l` is no longer there, or another has taken its place. */
  predicate Vanishes(f: Flat, op: Op, l: Locator) {
    var now := FlatStep(f, op).threads;
    l in f.threads && (l !in now || now[l].key != f.threads[l].key || now[l].startedAt != f.threads[l].startedAt)
  }

  /** A live thread of the process vanishes, and not by its own exit. */
  ghost predicate Loses(f: Flat, op: Op, k: ProcessKey) {
    && k in FlatStep(f, op).procs && !Born(f, op, k) && !op.ThreadExited?
    && exists l :: Vanishes(f, op, l) && f.threads[l].key == k
  }

  /** A thread of the process starts and is not recorded although the process takes threads. */
  predicate Refuses(f: Flat, op: Op, k: ProcessKey) {
    var now := FlatStep(f, op);
    && op.ThreadStarted? && KeyOf(op.process) == k && k in now.procs && !now.procs[k].retired
    && (k.tgid, op.task.tid) !in now.threads
  }

  /** The entries of a listing that are looked at: all before the first thread that finds no room. */
  function Heard(capacity: nat, tgid: nat, taken: set<Locator>, entries: seq<DirEntry>): seq<DirEntry>
    decreases |entries|
  {
    if entries == [] then []
    else match entries[0]
      case Unusable => [entries[0]] + Heard(capacity, tgid, taken, entries[1..])
      case Task(tid, _) =>
        if tid == tgid then [entries[0]] + Heard(capacity, tgid, taken, entries[1..])
        else if |taken| >= capacity then []
        else [entries[0]] + Heard(capacity, tgid, taken + {(tgid, tid)}, entries[1..])
  }

  /** An entry that is no thread, or a thread other than the leader whose name cannot be read or is not valid. */
  predicate Unclear(tgid: nat, e: DirEntry) { e.Unusable? || (e.tid != tgid && !Usable(e.comm)) }

  ghost predicate SomeUnclear(tgid: nat, heard: seq<DirEntry>) { exists e :: e in heard && Unclear(tgid, e) }

  /** The process is found by a bootstrap. */
  predicate Finds(f: Flat, op: Op, k: ProcessKey) { op.Bootstrapped? && KeyOf(op.process) == k && Born(f, op, k) }

  /** The operation is the reason for a gap of this kind. */
  ghost predicate Causes(f: Flat, op: Op, k: ProcessKey, gap: Gap) {
    match gap
    case KernelLoss => Loses(f, op, k)
    case StateCapacity => Refuses(f, op, k)
    case SnapshotPermission => Finds(f, op, k) && op.listing.None?
    case SnapshotRace =>
      Finds(f, op, k) && op.listing.Some? && SomeUnclear(k.tgid, Heard(f.capacity, k.tgid, f.threads.Keys, op.listing.value))
    case SnapshotTruncated =>
      Finds(f, op, k) && op.listing.Some? && |Heard(f.capacity, k.tgid, f.threads.Keys, op.listing.value)| < |op.listing.value|
    case DecodeFailure => false
    case AttributionFailure => false
    case DeliveryGap => false
  }

  /** A bootstrap does not seed over a live thread. */
  predicate FlatSafe(f: Flat, op: Op) {
    op.Bootstrapped? && KeyOf(op.process) !in f.procs && |f.procs| < f.capacity && op.listing.Some? ==>
      Clear(f.capacity, op.process.tgid, f.threads.Keys, op.listing.value)
  }

  // ---------------------------------------------------------------- seeding

  /** No thread goes, no other process changes, and the process under the key gains these gaps. */
  ghost predicate SeedsTo(f: Flat, g: Flat, key: ProcessKey, gaps: set<Gap>) {
    && key in f.procs && g.capacity == f.capacity && g.procs.Keys == f.procs.Keys
    && (forall l :: l in f.threads ==> l in g.threads && g.threads[l] == f.threads[l])
    && (forall k :: k in f.procs && k != key ==> g.procs[k] == f.procs[k])
    && g.procs[key].gaps == f.procs[key].gaps + gaps
  }

  lemma SeedsThrough(f: Flat, g: Flat, h: Flat, key: ProcessKey, a: set<Gap>, b: set<Gap>)
    requires SeedsTo(f, g, key, a) && SeedsTo(g, h, key, b)
    ensures SeedsTo(f, h, key, a + b)
  {}

  lemma GappedSeeds(f: Flat, key: ProcessKey, gap: Gap)
    requires key in f.procs
    ensures SeedsTo(f, WithProc(f, key, Gapped(f.procs[key], gap)), key, {gap})
  {}

  lemma SeededOneSeeds(f: Flat, key: ProcessKey, tid: nat, comm: Option<string>)
    requires key in f.procs && (key.tgid, tid) !in f.threads
    ensures SeedsTo(f, SeededOne(f, key, tid, comm), key, if Usable(comm) then {} else {SnapshotRace})
    ensures SeededOne(f, key, tid, comm).threads.Keys == f.threads.Keys + {(key.tgid, tid)}
  {}

  /** The gaps an entry that is looked at leaves. */
  function EntryGaps(tgid: nat, e: DirEntry): set<Gap> { if Unclear(tgid, e) then {SnapshotRace} else {} }

  /** The gaps a listing leaves: some entry is unclear, or some were not looked at. */
  ghost function HeardGaps(tgid: nat, heard: seq<DirEntry>, listed: nat): set<Gap> {
    (if SomeUnclear(tgid, heard) then {SnapshotRace} else {}) + (if |heard| < listed then {SnapshotTruncated} else {})
  }

  lemma HeardMore(tgid: nat, e: DirEntry, rest: seq<DirEntry>, listed: nat)
    ensures HeardGaps(tgid, [e] + rest, listed + 1) == EntryGaps(tgid, e) + HeardGaps(tgid, rest, listed)
  {
    var all := [e] + rest;
    assert all[0] == e;
    assert forall x :: x in all <==> x == e || x in rest;
    if SomeUnclear(tgid, rest) {
      var x :| x in rest && Unclear(tgid, x);
      assert x in all;
    }
  }

  lemma HeardNone(tgid: nat, listed: nat)
    ensures HeardGaps(tgid, [], listed) == if listed == 0 then {} else {SnapshotTruncated}
  {}

  lemma SeedsNothing(f: Flat, key: ProcessKey)
    requires key in f.procs
    ensures SeedsTo(f, f, key, {})
  {}

  /** Where seeding goes on after an entry, unless it stops there. */
  function After(f: Flat, key: ProcessKey, e: DirEntry): Flat
    requires key in f.procs
  {
    match e
    case Unusable => WithProc(f, key, Gapped(f.procs[key], SnapshotRace))
    case Task(tid, comm) => if tid == key.tgid then f else SeededOne(f, key, tid, comm)
  }

  predicate StopsAt(f: Flat, key: ProcessKey, e: DirEntry) { e.Task? && e.tid != key.tgid && |f.threads| >= f.capacity }

  lemma {:induction false} SeedUnfolds(f: Flat, key: ProcessKey, entries: seq<DirEntry>)
    requires key in f.procs && entries != [] && Clear(f.capacity, key.tgid, f.threads.Keys, entries)
    ensures var e, rest := entries[0], entries[1..];
            if StopsAt(f, key, e) then
              && Seeded(f, key, entries) == WithProc(f, key, Gapped(f.procs[key], SnapshotTruncated))
              && Heard(f.capacity, key.tgid, f.threads.Keys, entries) == []
            else
              var g := After(f, key, e);
              && key in g.procs && SeedsTo(f, g, key, EntryGaps(key.tgid, e))
              && Seeded(f, key, entries) == Seeded(g, key, rest)
              && Heard(f.capacity, key.tgid, f.threads.Keys, entries) == [e] + Heard(g.capacity, key.tgid, g.threads.Keys, rest)
              && Clear(g.capacity, key.tgid, g.threads.Keys, rest)
  {
    hide SeedsTo;
    hide SeededOne;
    SeedsNothing(f, key);
    assert |f.threads| == |f.threads.Keys|;
    match entries[0]
    case Unusable => GappedSeeds(f, key, SnapshotRace);
    case Task(tid, comm) =>
      if tid != key.tgid && |f.threads| < f.capacity {
        SeededOneSeeds(f, key, tid, comm);
        SeededOneCapacity(f, key, tid, comm);
      }
  }

  lemma SeededOneCapacity(f: Flat, key: ProcessKey, tid: nat, comm: Option<string>)
    requires key in f.procs
    ensures SeededOne(f, key, tid, comm).capacity == f.capacity
  {}

  /** What seeding does: the gaps are those of the listing, and no other thread or process changes. */
  lemma {:induction false} SeededIs(f: Flat, key: ProcessKey, entries: seq<DirEntry>)
    requires key in f.procs && Clear(f.capacity, key.tgid, f.threads.Keys, entries)
    ensures var heard := Heard(f.capacity, key.tgid, f.threads.Keys, entries);
            |heard| <= |entries| && SeedsTo(f, Seeded(f, key, entries), key, HeardGaps(key.tgid, heard, |entries|))
    decreases |entries|, 0
  {
    HeardNone(key.tgid, |entries|);
    if entries == [] {
      SeedsNothing(f, key);
    } else {
      hide SeedsTo;
      hide HeardGaps;
      hide Seeded;
      hide Heard;
      hide Clear;
      hide After;
      SeedUnfolds(f, key, entries);
      if StopsAt(f, key, entries[0]) {
        GappedSeeds(f, key, SnapshotTruncated);
      } else {
        SeededRest(f, After(f, key, entries[0]), key, entries[0], entries[1..]);
      }
    }
  }

  lemma {:induction false} SeededRest(f: Flat, g: Flat, key: ProcessKey, e: DirEntry, rest: seq<DirEntry>)
    requires key in f.procs && key in g.procs && SeedsTo(f, g, key, EntryGaps(key.tgid, e)) && Clear(g.capacity, key.tgid, g.threads.Keys, rest)
    ensures var heard := Heard(g.capacity, key.tgid, g.threads.Keys, rest);
            |heard| <= |rest| && SeedsTo(f, Seeded(g, key, rest), key, HeardGaps(key.tgid, [e] + heard, |rest| + 1))
    decreases |rest|, 1
  {
    hide SeedsTo;
    hide HeardGaps;
    hide Seeded;
    hide Heard;
    hide Clear;
    var heard := Heard(g.capacity, key.tgid, g.threads.Keys, rest);
    SeededIs(g, key, rest);
    SeedsThrough(f, g, Seeded(g, key, rest), key, EntryGaps(key.tgid, e), HeardGaps(key.tgid, heard, |rest|));
    HeardMore(key.tgid, e, heard, |rest|);
  }

  // ---------------------------------------------------------------- one operation

  /** What an operation does to the gaps of a process. */
  ghost predicate GapStep(f: Flat, op: Op, k: ProcessKey) {
    var g := FlatStep(f, op);
    k in g.procs ==> forall gap ::
      gap in g.procs[k].gaps <==> Causes(f, op, k, gap) || (!Opens(f, op, k) && k in f.procs && gap in f.procs[k].gaps)
  }

  /** What an operation does to the completeness of a process. */
  ghost predicate CompleteStep(f: Flat, op: Op, k: ProcessKey) {
    var g := FlatStep(f, op);
    k in g.procs ==>
      (g.procs[k].complete <==>
       if Born(f, op, k) then BornComplete(f, op, k) else k in f.procs && f.procs[k].complete && !Loses(f, op, k))
  }

  /** The process began with its start observed, or with a snapshot that missed nothing. */
  ghost predicate BornComplete(f: Flat, op: Op, k: ProcessKey) {
    match op
    case ProcessStarted(_, _, _, start) => start.generation.startObserved
    case ThreadStarted(_, _, _, generation, _) => generation.startObserved
    case Bootstrapped(_, _, _, _, _) => forall gap :: !Causes(f, op, k, gap)
    case _ => false
  }

  /** The threads of the process are all still there. */
  predicate Stays(f: Flat, g: Flat, k: ProcessKey) {
    forall l :: l in f.threads && f.threads[l].key == k ==>
      l in g.threads && g.threads[l].key == k && g.threads[l].startedAt == f.threads[l].startedAt
  }

  lemma NoLoss(f: Flat, op: Op, k: ProcessKey)
    requires Stays(f, FlatStep(f, op), k)
    ensures !Loses(f, op, k)
  {
    hide FlatStep;
  }

  /** An operation that does not concern the process. */
  lemma Unconcerned(f: Flat, op: Op, k: ProcessKey)
    requires var g := FlatStep(f, op); k in g.procs ==> k in f.procs && g.procs[k] == f.procs[k] && Stays(f, g, k)
    requires !Opens(f, op, k) && !Refuses(f, op, k)
    ensures GapStep(f, op, k) && CompleteStep(f, op, k)
  {
    hide FlatStep;
    hide Heard;
    hide SomeUnclear;
    hide Loses;
    hide Stays;
    if k in FlatStep(f, op).procs {
      NoLoss(f, op, k);
    }
  }

  lemma FreshProc(a: nat, p: Process, g: Generation, at: int)
    ensures var q := NewProc(a, p, g, at); q.gaps == {} && !q.retired && q.complete == g.startObserved
  {}

  lemma ForgottenIs(f: Flat, key: ProcessKey)
    ensures var d := Forgotten(f, key);
            && d.capacity == f.capacity && key !in d.procs
            && (forall k :: k != key ==> (k in d.procs <==> k in f.procs) && (k in f.procs ==> d.procs[k] == f.procs[k]))
            && (forall l :: l in f.threads && f.threads[l].key != key ==> l in d.threads && d.threads[l] == f.threads[l])
            && (forall l :: l in d.threads ==> l in f.threads && d.threads[l] == f.threads[l] && d.threads[l].key != key)
  {}

  lemma StartedGaps(f: Flat, op: Op, k: ProcessKey)
    requires op.ProcessStarted?
    ensures GapStep(f, op, k) && CompleteStep(f, op, k)
  {
    assert FlatStep(f, op) == Started(f, op.at, op.attribution, op.process, op.start);
    hide FlatStep;
    hide NewProc;
    hide Forgotten;
    var key := KeyOf(op.process);
    ForgottenIs(f, key);
    if key == k {
      FreshProc(op.attribution, op.process, op.start.generation, op.at);
      StartedConclude(f, op, k);
    } else {
      Unconcerned(f, op, k);
    }
  }

  lemma StartedConclude(f: Flat, op: Op, k: ProcessKey)
    requires op.ProcessStarted? && KeyOf(op.process) == k
    requires var g := FlatStep(f, op); k in g.procs ==> g.procs[k].gaps == {} && g.procs[k].complete == op.start.generation.startObserved
    ensures GapStep(f, op, k) && CompleteStep(f, op, k)
  {
    hide FlatStep;
    hide Heard;
    hide SomeUnclear;
    hide Vanishes;
  }

  lemma FlushGaps(f: Flat, op: Op, k: ProcessKey)
    requires op.FlushedAt?
    ensures GapStep(f, op, k) && CompleteStep(f, op, k)
  {
    NoLoss(f, op, k);
    hide Loses;
    hide Owned;
  }

  lemma RenamedGaps(f: Flat, op: Op, k: ProcessKey)
    requires op.Renamed?
    ensures GapStep(f, op, k) && CompleteStep(f, op, k)
  {
    NoLoss(f, op, k);
    hide Loses;
  }

  lemma ExitedGaps(f: Flat, op: Op, k: ProcessKey)
    requires op.ThreadExited?
    ensures GapStep(f, op, k) && CompleteStep(f, op, k)
  {}

  lemma RetiresIs(p: Proc, threads: Table, k: ProcessKey)
    ensures var q := Retires(p, threads, k);
            && q.gaps == p.gaps + (if Owned(threads, k) == {} then {} else {KernelLoss})
            && q.complete == (p.complete && Owned(threads, k) == {})
  {
    hide Owned;
    hide OwnedAs;
  }

  lemma ProcessOffIs(f: Flat, key: ProcessKey)
    ensures var g := ProcessOff(f, key);
            && (forall k :: k != key || k !in f.procs ==> (k in g.procs ==> k in f.procs && g.procs[k] == f.procs[k]))
            && (forall k :: k != key || k !in f.procs ==> k !in g.procs || Stays(f, g, k))
            && (key in f.procs ==>
                  && (forall l :: l in g.threads ==> g.threads[l].key != key)
                  && g.procs[key] == Retires(f.procs[key], f.threads, key))
  {
    hide Retires;
  }

  lemma ProcessExitLoses(f: Flat, op: Op)
    requires op.ProcessExited? && op.key in f.procs
    ensures Loses(f, op, op.key) <==> Owned(f.threads, op.key) != {}
  {
    hide Retires;
    ProcessOffIs(f, op.key);
    if Owned(f.threads, op.key) != {} {
      var l :| l in Owned(f.threads, op.key);
      assert Vanishes(f, op, l);
    } else {
      assert forall l :: l in f.threads && f.threads[l].key == op.key ==> l in Owned(f.threads, op.key);
    }
  }

  lemma ProcessExitedGaps(f: Flat, op: Op, k: ProcessKey)
    requires op.ProcessExited?
    ensures GapStep(f, op, k) && CompleteStep(f, op, k)
  {
    assert FlatStep(f, op) == ProcessOff(f, op.key);
    ProcessOffIs(f, op.key);
    hide FlatStep;
    hide ProcessOff;
    hide Retires;
    hide Stays;
    hide Loses;
    hide Owned;
    if k != op.key || k !in f.procs {
      Unconcerned(f, op, k);
    } else {
      RetiresIs(f.procs[k], f.threads, k);
      ProcessExitLoses(f, op);
    }
  }

  /** Ensuring a process changes it and its threads only, and those only when its generation is another. */
  lemma EnsuredIs(f: Flat, at: int, a: nat, p: Process, g: Generation)
    ensures var e, key := Ensured(f, at, a, p, g), KeyOf(p);
            && e.capacity == f.capacity
            && (forall k :: k != key ==> (k in e.procs <==> k in f.procs) && (k in f.procs ==> e.procs[k] == f.procs[k]))
            && (forall l :: l in f.threads && f.threads[l].key != key ==> l in e.threads && e.threads[l] == f.threads[l])
            && (forall l :: l in e.threads ==> l in f.threads && e.threads[l] == f.threads[l])
            && (key in f.procs && f.procs[key].generation == g ==> e == f)
            && (key in e.procs && !(key in f.procs && f.procs[key].generation == g) ==>
                  && (forall l :: l in e.threads ==> e.threads[l].key != key)
                  && e.procs[key].gaps == {} && !e.procs[key].retired && e.procs[key].complete == g.startObserved)
  {
    hide NewProc;
    hide Forgotten;
    FreshProc(a, p, g, at);
    ForgottenIs(f, KeyOf(p));
  }

  lemma LostIs(e: Flat, l: Locator)
    ensures var g := Lost(e, l);
            && g.capacity == e.capacity && g.threads == e.threads - {l} && g.procs.Keys == e.procs.Keys
            && (forall k :: k in e.procs ==>
                  && g.procs[k].retired == e.procs[k].retired
                  && g.procs[k].complete == (e.procs[k].complete && !(l in e.threads && e.threads[l].key == k))
                  && g.procs[k].gaps == e.procs[k].gaps + (if l in e.threads && e.threads[l].key == k then {KernelLoss} else {}))
  {
    assert l !in e.threads ==> e.threads - {l} == e.threads;
  }

  lemma BeginsKeeps(p: Proc, raw: string, live: nat)
    ensures var q := Begins(p, raw, live); q.retired == p.retired && q.complete == p.complete && q.gaps == p.gaps
  {}

  /** Only the process under the key changes, and of it neither flag but the gaps. */
  ghost predicate GapsOnly(e: Flat, g: Flat, key: ProcessKey, gaps: set<Gap>) {
    && key in e.procs && g.procs.Keys == e.procs.Keys && (forall k :: k in e.procs && k != key ==> g.procs[k] == e.procs[k])
    && g.procs[key].retired == e.procs[key].retired && g.procs[key].complete == e.procs[key].complete
    && g.procs[key].gaps == e.procs[key].gaps + gaps
  }

  lemma WithProcGaps(e: Flat, threads: Table, key: ProcessKey, q: Proc, gaps: set<Gap>)
    requires key in e.procs && q.retired == e.procs[key].retired && q.complete == e.procs[key].complete && q.gaps == e.procs[key].gaps + gaps
    ensures GapsOnly(e, WithProc(e.(threads := threads), key, q), key, gaps)
  {}

  lemma PlacedGaps(e: Flat, key: ProcessKey, task: TaskStart)
    requires key in e.procs
    ensures GapsOnly(e, Placed(e, key, task), key, if |e.threads| >= e.capacity then {StateCapacity} else {})
  {
    hide GapsOnly;
    hide Owned;
    hide Begins;
    hide NameIn;
    var p, g := e.procs[key], Placed(e, key, task);
    if |e.threads| >= e.capacity {
      assert e.(threads := e.threads) == e;
      WithProcGaps(e, e.threads, key, Gapped(p, StateCapacity), {StateCapacity});
    } else {
      BeginsKeeps(p, task.name, |Owned(g.threads, key)|);
      WithProcGaps(e, g.threads, key, Begins(p, task.name, |Owned(g.threads, key)|), {});
    }
  }

  lemma PlacedThreads(e: Flat, key: ProcessKey, task: TaskStart)
    requires key in e.procs
    ensures Placed(e, key, task).threads
         == if |e.threads| >= e.capacity then e.threads
            else e.threads[(key.tgid, task.tid) := Thread(key, task.at, NameIn(e.procs[key].names, task.name))]
  {
    hide Owned;
    hide Begins;
    hide NameIn;
  }

  lemma PlacedIs(e: Flat, key: ProcessKey, task: TaskStart)
    requires key in e.procs && (key.tgid, task.tid) !in e.threads
    ensures var g, l := Placed(e, key, task), (key.tgid, task.tid);
            && g.procs.Keys == e.procs.Keys
            && (forall m :: m in e.threads ==> m in g.threads && g.threads[m] == e.threads[m])
            && (l in g.threads ==> g.threads[l].key == key && g.threads[l].startedAt == task.at)
            && (l !in g.threads <==> |e.threads| >= e.capacity)
            && (forall k :: k in e.procs ==>
                  && g.procs[k].retired == e.procs[k].retired && g.procs[k].complete == e.procs[k].complete
                  && g.procs[k].gaps == e.procs[k].gaps + (if k == key && l !in g.threads then {StateCapacity} else {}))
  {
    hide Placed;
    hide NameIn;
    var g, l := Placed(e, key, task), (key.tgid, task.tid);
    PlacedGaps(e, key, task);
    PlacedThreads(e, key, task);
    forall k | k in e.procs
      ensures g.procs[k].retired == e.procs[k].retired && g.procs[k].complete == e.procs[k].complete
      ensures g.procs[k].gaps == e.procs[k].gaps + (if k == key && l !in g.threads then {StateCapacity} else {})
    {
      assert k != key ==> e.procs[k].gaps + {} == e.procs[k].gaps;
    }
  }

  /** The start of a thread on a process that takes it. */
  lemma ThreadOnIs(e: Flat, key: ProcessKey, task: TaskStart)
    requires key in e.procs
    ensures var g, l := ThreadOn(e, key, task), (key.tgid, task.tid);
            var reused := !Stale(e, key, task) && l in e.threads;
            && g.procs.Keys == e.procs.Keys
            && (forall m :: m in e.threads && m != l ==> m in g.threads && g.threads[m] == e.threads[m])
            && (Stale(e, key, task) ==> g == e)
            && (l in g.threads && !Stale(e, key, task) ==> g.threads[l].key == key && g.threads[l].startedAt == task.at)
            && (forall k :: k in e.procs ==>
                  && g.procs[k].retired == e.procs[k].retired
                  && g.procs[k].complete == (e.procs[k].complete && !(reused && e.threads[l].key == k))
                  && g.procs[k].gaps == e.procs[k].gaps + (if reused && e.threads[l].key == k then {KernelLoss} else {})
                                        + (if k == key && l !in g.threads then {StateCapacity} else {}))
  {
    hide Lost;
    hide Placed;
    var l := (key.tgid, task.tid);
    if !Stale(e, key, task) {
      LostIs(e, l);
      PlacedIs(Lost(e, l), key, task);
    }
  }

  lemma ThreadStartedGaps(f: Flat, op: Op, k: ProcessKey)
    requires op.ThreadStarted?
    ensures GapStep(f, op, k) && CompleteStep(f, op, k)
  {
    hide GapStep;
    hide CompleteStep;
    hide Ensured;
    hide ThreadOn;
    var key := KeyOf(op.process);
    var e := Ensured(f, op.at, op.attribution, op.process, op.generation);
    if key in e.procs && !e.procs[key].retired {
      TakenGaps(f, op, k, e, ThreadOn(e, key, op.task));
    } else {
      IdleGaps(f, op, k, e);
    }
  }

  /** A start on a process that does not take it. */
  lemma IdleGaps(f: Flat, op: Op, k: ProcessKey, e: Flat)
    requires op.ThreadStarted? && e == Ensured(f, op.at, op.attribution, op.process, op.generation)
    requires (KeyOf(op.process) in e.procs ==> e.procs[KeyOf(op.process)].retired) && FlatStep(f, op) == e
    ensures GapStep(f, op, k) && CompleteStep(f, op, k)
  {
    hide FlatStep;
    hide Ensured;
    hide GapStep;
    hide CompleteStep;
    EnsuredIs(f, op.at, op.attribution, op.process, op.generation);
    Unconcerned(f, op, k);
  }

  /** A start on a process that takes it: a process loses a thread exactly when the thread id was in use. */
  lemma TakenGaps(f: Flat, op: Op, k: ProcessKey, e: Flat, g: Flat)
    requires op.ThreadStarted? && e == Ensured(f, op.at, op.attribution, op.process, op.generation)
    requires KeyOf(op.process) in e.procs && !e.procs[KeyOf(op.process)].retired
    requires g == ThreadOn(e, KeyOf(op.process), op.task) && FlatStep(f, op) == g
    ensures GapStep(f, op, k) && CompleteStep(f, op, k)
  {
    hide ThreadOn;
    hide Ensured;
    hide FlatStep;
    hide Loses;
    hide GapStep;
    hide CompleteStep;
    var key, task := KeyOf(op.process), op.task;
    var l := (key.tgid, task.tid);
    EnsuredIs(f, op.at, op.attribution, op.process, op.generation);
    ThreadOnIs(e, key, task);
    if k in g.procs {
      var lost := !Stale(e, key, task) && l in e.threads && e.threads[l].key == k;
      if Born(f, op, k) {
        NoLossBorn(f, op, k);
      } else {
        TakenLoses(f, op, k, e, g);
      }
      TakenConclude(f, op, k, e.procs[k], lost);
    } else {
      NotThere(f, op, k);
    }
  }

  lemma NotThere(f: Flat, op: Op, k: ProcessKey)
    requires k !in FlatStep(f, op).procs
    ensures GapStep(f, op, k) && CompleteStep(f, op, k)
  {
    hide FlatStep;
  }

  lemma TakenConclude(f: Flat, op: Op, k: ProcessKey, p: Proc, lost: bool)
    requires op.ThreadStarted? && k in FlatStep(f, op).procs && (Loses(f, op, k) <==> lost)
    requires var q := FlatStep(f, op).procs[k];
             && q.gaps == p.gaps + (if lost then {KernelLoss} else {}) + (if Refuses(f, op, k) then {StateCapacity} else {})
             && q.complete == (p.complete && !lost)
    requires if Born(f, op, k) then p.gaps == {} && p.complete == op.generation.startObserved && !lost else k in f.procs && p == f.procs[k]
    ensures GapStep(f, op, k) && CompleteStep(f, op, k)
  {
    hide FlatStep;
    hide Loses;
    hide Refuses;
    hide Born;
    hide Heard;
    hide SomeUnclear;
  }

  lemma NoLossBorn(f: Flat, op: Op, k: ProcessKey)
    requires Born(f, op, k)
    ensures !Loses(f, op, k)
  {
    hide FlatStep;
  }

  lemma TakenLoses(f: Flat, op: Op, k: ProcessKey, e: Flat, g: Flat)
    requires op.ThreadStarted? && e == Ensured(f, op.at, op.attribution, op.process, op.generation)
    requires KeyOf(op.process) in e.procs && g == ThreadOn(e, KeyOf(op.process), op.task) && FlatStep(f, op) == g
    requires k in g.procs && !Born(f, op, k)
    ensures k in f.procs && e.procs[k] == f.procs[k]
    ensures var key, task := KeyOf(op.process), op.task;
            var l := (key.tgid, task.tid);
            Loses(f, op, k) <==> !Stale(e, key, task) && l in e.threads && e.threads[l].key == k
  {
    hide ThreadOn;
    hide Ensured;
    hide FlatStep;
    hide Loses;
    var key, task := KeyOf(op.process), op.task;
    var l := (key.tgid, task.tid);
    EnsuredIs(f, op.at, op.attribution, op.process, op.generation);
    ThreadOnIs(e, key, task);
    var lost := !Stale(e, key, task) && l in e.threads && e.threads[l].key == k;
    forall m | m in f.threads && f.threads[m].key == k && !(m == l && lost)
      ensures m in g.threads && g.threads[m].key == k && g.threads[m].startedAt == f.threads[m].startedAt
    {
      assert m in e.threads && e.threads[m] == f.threads[m];
    }
    hide Stale;
    if lost {
      assert Vanishes(f, op, l);
      LossBy(f, op, k, l);
    } else {
      NoLoss(f, op, k);
    }
  }

  lemma LossBy(f: Flat, op: Op, k: ProcessKey, l: Locator)
    requires k in FlatStep(f, op).procs && !Born(f, op, k) && !op.ThreadExited? && Vanishes(f, op, l) && f.threads[l].key == k
    ensures Loses(f, op, k)
  {
    hide FlatStep;
  }

  lemma BootstrappedGaps(f: Flat, op: Op, k: ProcessKey)
    requires op.Bootstrapped? && FlatSafe(f, op)
    ensures GapStep(f, op, k) && CompleteStep(f, op, k)
  {
    hide GapStep;
    hide CompleteStep;
    hide FoundWith;
    hide Clear;
    if KeyOf(op.process) in f.procs || |f.procs| >= f.capacity {
      assert FlatStep(f, op) == f;
      Unconcerned(f, op, k);
    } else {
      BootstrapIs(f, op);
      AddsGaps(f, op, k);
    }
  }

  lemma AddsGaps(f: Flat, op: Op, k: ProcessKey)
    requires op.Bootstrapped? && KeyOf(op.process) !in f.procs && Adds(f, FlatStep(f, op), KeyOf(op.process), FoundWith(f, op))
    ensures GapStep(f, op, k) && CompleteStep(f, op, k)
  {
    hide GapStep;
    hide CompleteStep;
    hide FlatStep;
    hide FoundWith;
    if k != KeyOf(op.process) {
      assert Stays(f, FlatStep(f, op), k);
      Unconcerned(f, op, k);
    } else {
      FoundGaps(f, op, k);
    }
  }

  /** The gaps a bootstrap finds. */
  ghost function FoundWith(f: Flat, op: Op): set<Gap>
    requires op.Bootstrapped?
  {
    match op.listing
    case None => {SnapshotPermission}
    case Some(entries) => HeardGaps(op.process.tgid, Heard(f.capacity, op.process.tgid, f.threads.Keys, entries), |entries|)
  }

  /** A bootstrap adds its process and its threads and changes nothing else. */
  ghost predicate Adds(f: Flat, g: Flat, key: ProcessKey, gaps: set<Gap>) {
    && (forall l :: l in f.threads ==> l in g.threads && g.threads[l] == f.threads[l])
    && g.procs.Keys == f.procs.Keys + {key} && (forall k :: k in f.procs ==> g.procs[k] == f.procs[k])
    && g.procs[key].gaps == gaps && g.procs[key].complete == (gaps == {})
  }

  lemma SettledAdds(f: Flat, g: Flat, key: ProcessKey, gaps: set<Gap>)
    requires key !in f.procs && key in g.procs && g.procs[key].gaps == gaps
    requires forall l :: l in f.threads ==> l in g.threads && g.threads[l] == f.threads[l]
    requires g.procs.Keys == f.procs.Keys + {key} && (forall k :: k in f.procs ==> g.procs[k] == f.procs[k])
    ensures Adds(f, TaskLifecycleFlat.Settled(g, key), key, gaps)
  {
    hide Owned;
  }

  lemma BootstrapIs(f: Flat, op: Op)
    requires op.Bootstrapped? && FlatSafe(f, op) && KeyOf(op.process) !in f.procs && |f.procs| < f.capacity
    ensures Adds(f, FlatStep(f, op), KeyOf(op.process), FoundWith(f, op))
  {
    hide Adds;
    hide FromListing;
    hide Heard;
    hide HeardGaps;
    hide Clear;
    if op.listing.None? {
      UnlistedAdds(f, op.at, op.attribution, op.process, op.generation);
    } else {
      ListedAdds(f, op.at, op.attribution, op.process, op.generation, op.listing.value, FoundWith(f, op));
    }
  }

  lemma UnlistedAdds(f: Flat, at: int, a: nat, p: Process, g: Generation)
    requires KeyOf(p) !in f.procs && |f.procs| < f.capacity
    ensures Adds(f, FromListing(f, at, a, p, g, None), KeyOf(p), {SnapshotPermission})
  {
    hide Adds;
    hide TaskLifecycleFlat.Settled;
    hide NewProc;
    FreshProc(a, p, g, at);
    SettledAdds(f, WithProc(f, KeyOf(p), Gapped(NewProc(a, p, g, at), SnapshotPermission).(baseline := Unavailable)), KeyOf(p), {SnapshotPermission});
  }

  lemma {:induction false} ListedAdds(f: Flat, at: int, a: nat, p: Process, g: Generation, entries: seq<DirEntry>, gaps: set<Gap>)
    requires KeyOf(p) !in f.procs && |f.procs| < f.capacity && Clear(f.capacity, p.tgid, f.threads.Keys, entries)
    requires gaps == HeardGaps(p.tgid, Heard(f.capacity, p.tgid, f.threads.Keys, entries), |entries|)
    ensures Adds(f, FromListing(f, at, a, p, g, Some(entries)), KeyOf(p), gaps)
  {
    hide Adds;
    hide TaskLifecycleFlat.Settled;
    hide NewProc;
    hide Heard;
    hide HeardGaps;
    hide Seeded;
    hide Clear;
    FreshProc(a, p, g, at);
    SeededAdds(f, KeyOf(p), NewProc(a, p, g, at).(baseline := Snapshot), entries, gaps);
  }

  lemma {:induction false} SeededAdds(f: Flat, key: ProcessKey, p: Proc, entries: seq<DirEntry>, gaps: set<Gap>)
    requires key !in f.procs && p.gaps == {} && Clear(f.capacity, key.tgid, f.threads.Keys, entries)
    requires gaps == HeardGaps(key.tgid, Heard(f.capacity, key.tgid, f.threads.Keys, entries), |entries|)
    ensures Adds(f, TaskLifecycleFlat.Settled(Seeded(WithProc(f, key, p), key, entries), key), key, gaps)
  {
    hide Adds;
    hide TaskLifecycleFlat.Settled;
    hide Heard;
    hide HeardGaps;
    hide Seeded;
    hide Clear;
    SeededIs(WithProc(f, key, p), key, entries);
    SettledAdds(f, Seeded(WithProc(f, key, p), key, entries), key, gaps);
  }

  lemma FoundGaps(f: Flat, op: Op, k: ProcessKey)
    requires op.Bootstrapped? && k == KeyOf(op.process) && k !in f.procs && k in FlatStep(f, op).procs
    requires FlatStep(f, op).procs[k].gaps == FoundWith(f, op) && FlatStep(f, op).procs[k].complete == (FoundWith(f, op) == {})
    ensures GapStep(f, op, k) && CompleteStep(f, op, k)
  {
    hide FlatStep;
    hide Heard;
    hide SomeUnclear;
    forall gap ensures gap in FoundWith(f, op) <==> Causes(f, op, k, gap) {}
    assert FoundWith(f, op) == {} <==> forall gap :: gap !in FoundWith(f, op);
  }

  lemma StepGaps(f: Flat, op: Op, k: ProcessKey)
    requires FlatSafe(f, op)
    ensures GapStep(f, op, k) && CompleteStep(f, op, k)
  {
    hide GapStep;
    hide CompleteStep;
    match op
    case ProcessStarted(_, _, _, _) => StartedGaps(f, op, k);
    case ThreadStarted(_, _, _, _, _) => ThreadStartedGaps(f, op, k);
    case Bootstrapped(_, _, _, _, _) => BootstrappedGaps(f, op, k);
    case Renamed(_, _, _) => RenamedGaps(f, op, k);
    case ThreadExited(_, _, _) => ExitedGaps(f, op, k);
    case ProcessExited(_) => ProcessExitedGaps(f, op, k);
    case FlushedAt(_) => FlushGaps(f, op, k);
  }

  // ---------------------------------------------------------------- whole runs

  /** The flat model before operation `i`. */
  ghost function Before(capacity: nat, ops: seq<Op>, i: nat): Flat
    requires i <= |ops|
  {
    FlatRun(FlatInit(capacity), ops[..i])
  }

  /** The reason for such a gap has come up since the process's window began. */
  ghost predicate GapSince(capacity: nat, ops: seq<Op>, k: ProcessKey, gap: Gap) {
    exists i: nat :: i < |ops| && GapFrom(capacity, ops, k, gap, i)
  }

  /** Operation `i` began the process, complete, and no thread has been lost since. */
  ghost predicate CompleteFrom(capacity: nat, ops: seq<Op>, k: ProcessKey, i: nat)
    requires i < |ops|
  {
    && Born(Before(capacity, ops, i), ops[i], k) && BornComplete(Before(capacity, ops, i), ops[i], k)
    && forall j: nat :: i < j < |ops| ==> Unharmed(Before(capacity, ops, j), ops[j], k)
  }

  /** The process is neither replaced nor loses a thread. */
  ghost predicate Unharmed(f: Flat, op: Op, k: ProcessKey) { !Born(f, op, k) && !Loses(f, op, k) }

  /** The process began complete and has lost no thread since. */
  ghost predicate CompleteSince(capacity: nat, ops: seq<Op>, k: ProcessKey) {
    exists i: nat :: i < |ops| && CompleteFrom(capacity, ops, k, i)
  }

  ghost predicate FlatSafeRun(capacity: nat, ops: seq<Op>) {
    forall i: nat :: i < |ops| ==> FlatSafe(Before(capacity, ops, i), ops[i])
  }

  lemma {:induction false} FlatRunMore(f: Flat, ops: seq<Op>, op: Op)
    ensures FlatRun(f, ops + [op]) == FlatStep(FlatRun(f, ops), op)
    decreases |ops|
  {
    hide FlatStep;
    var all := ops + [op];
    if ops == [] {
      assert all[1..] == [];
    } else {
      assert all[1..] == ops[1..] + [op];
      FlatRunMore(FlatStep(f, ops[0]), ops[1..], op);
    }
  }

  lemma BeforeMore(capacity: nat, ops: seq<Op>, op: Op)
    ensures forall i: nat :: i <= |ops| ==> Before(capacity, ops + [op], i) == Before(capacity, ops, i)
    ensures Before(capacity, ops + [op], |ops| + 1) == FlatStep(Before(capacity, ops, |ops|), op)
  {
    hide FlatRun;
    hide FlatStep;
    var all := ops + [op];
    forall i: nat | i <= |ops| ensures all[..i] == ops[..i] {}
    assert all[..|ops| + 1] == all && ops[..|ops|] == ops;
    FlatRunMore(FlatInit(capacity), ops, op);
  }

  /** Operation `i` is the reason, and no window has begun since. */
  ghost predicate GapFrom(capacity: nat, ops: seq<Op>, k: ProcessKey, gap: Gap, i: nat)
    requires i < |ops|
  {
    Causes(Before(capacity, ops, i), ops[i], k, gap) && forall j: nat :: i < j < |ops| ==> !Opens(Before(capacity, ops, j), ops[j], k)
  }

  lemma GapFromMore(capacity: nat, ops: seq<Op>, op: Op, k: ProcessKey, gap: Gap, i: nat)
    requires i < |ops|
    ensures GapFrom(capacity, ops + [op], k, gap, i) <==> GapFrom(capacity, ops, k, gap, i) && !Opens(Before(capacity, ops, |ops|), op, k)
  {
    hide Causes;
    hide Opens;
    hide Before;
    var all, n := ops + [op], |ops|;
    BeforeMore(capacity, ops, op);
    forall j: nat | j < n ensures Before(capacity, all, j) == Before(capacity, ops, j) && all[j] == ops[j] {}
    if GapFrom(capacity, all, k, gap, i) {
      assert !Opens(Before(capacity, all, n), all[n], k);
      forall j: nat | i < j < n ensures !Opens(Before(capacity, ops, j), ops[j], k) {
        assert !Opens(Before(capacity, all, j), all[j], k);
      }
    }
    if GapFrom(capacity, ops, k, gap, i) && !Opens(Before(capacity, ops, n), op, k) {
      forall j: nat | i < j < |all| ensures !Opens(Before(capacity, all, j), all[j], k) {
        if j < n {
          assert !Opens(Before(capacity, ops, j), ops[j], k);
        }
      }
    }
  }

  lemma GapFromLast(capacity: nat, ops: seq<Op>, op: Op, k: ProcessKey, gap: Gap)
    ensures GapFrom(capacity, ops + [op], k, gap, |ops|) <==> Causes(Before(capacity, ops, |ops|), op, k, gap)
  {
    hide Causes;
    hide Opens;
    hide Before;
    BeforeMore(capacity, ops, op);
  }

  lemma GapSinceMore(capacity: nat, ops: seq<Op>, op: Op, k: ProcessKey, gap: Gap)
    ensures var f := Before(capacity, ops, |ops|);
            GapSince(capacity, ops + [op], k, gap) <==> Causes(f, op, k, gap) || (!Opens(f, op, k) && GapSince(capacity, ops, k, gap))
  {
    hide Causes;
    hide Opens;
    hide Before;
    hide GapFrom;
    var all, n := ops + [op], |ops|;
    GapFromLast(capacity, ops, op, k, gap);
    forall i: nat | i < n ensures GapFrom(capacity, all, k, gap, i) <==> GapFrom(capacity, ops, k, gap, i) && !Opens(Before(capacity, ops, n), op, k) {
      GapFromMore(capacity, ops, op, k, gap, i);
    }
    if GapSince(capacity, all, k, gap) {
      var i: nat :| i < |all| && GapFrom(capacity, all, k, gap, i);
      assert i < n ==> GapFrom(capacity, ops, k, gap, i);
    }
    if Causes(Before(capacity, ops, n), op, k, gap) {
      assert GapFrom(capacity, all, k, gap, n);
    } else if !Opens(Before(capacity, ops, n), op, k) && GapSince(capacity, ops, k, gap) {
      var i: nat :| i < |ops| && GapFrom(capacity, ops, k, gap, i);
      assert GapFrom(capacity, all, k, gap, i);
    }
  }

  lemma CompleteFromMore(capacity: nat, ops: seq<Op>, op: Op, k: ProcessKey, i: nat)
    requires i < |ops|
    ensures CompleteFrom(capacity, ops + [op], k, i) <==> CompleteFrom(capacity, ops, k, i) && Unharmed(Before(capacity, ops, |ops|), op, k)
  {
    hide Born;
    hide BornComplete;
    hide Unharmed;
    hide Before;
    var all, n := ops + [op], |ops|;
    BeforeMore(capacity, ops, op);
    forall j: nat | j < n ensures Before(capacity, all, j) == Before(capacity, ops, j) && all[j] == ops[j] {}
    if CompleteFrom(capacity, all, k, i) {
      assert Unharmed(Before(capacity, all, n), all[n], k);
      forall j: nat | i < j < n ensures Unharmed(Before(capacity, ops, j), ops[j], k) {
        assert Unharmed(Before(capacity, all, j), all[j], k);
      }
    }
    if CompleteFrom(capacity, ops, k, i) && Unharmed(Before(capacity, ops, n), op, k) {
      forall j: nat | i < j < |all| ensures Unharmed(Before(capacity, all, j), all[j], k) {
        if j < n {
          assert Unharmed(Before(capacity, ops, j), ops[j], k);
        }
      }
    }
  }

  lemma CompleteFromLast(capacity: nat, ops: seq<Op>, op: Op, k: ProcessKey)
    ensures var f := Before(capacity, ops, |ops|);
            CompleteFrom(capacity, ops + [op], k, |ops|) <==> Born(f, op, k) && BornComplete(f, op, k)
  {
    hide Born;
    hide BornComplete;
    hide Unharmed;
    hide Before;
    BeforeMore(capacity, ops, op);
  }

  lemma CompleteSinceMore(capacity: nat, ops: seq<Op>, op: Op, k: ProcessKey)
    ensures var f := Before(capacity, ops, |ops|);
            CompleteSince(capacity, ops + [op], k)
            <==> if Born(f, op, k) then BornComplete(f, op, k) else CompleteSince(capacity, ops, k) && !Loses(f, op, k)
  {
    hide Born;
    hide BornComplete;
    hide Loses;
    hide Before;
    hide CompleteFrom;
    var all, n := ops + [op], |ops|;
    CompleteFromLast(capacity, ops, op, k);
    forall i: nat | i < n ensures CompleteFrom(capacity, all, k, i) <==> CompleteFrom(capacity, ops, k, i) && Unharmed(Before(capacity, ops, n), op, k) {
      CompleteFromMore(capacity, ops, op, k, i);
    }
    if CompleteSince(capacity, all, k) {
      var i: nat :| i < |all| && CompleteFrom(capacity, all, k, i);
      assert i < n ==> CompleteFrom(capacity, ops, k, i);
    }
    if Born(Before(capacity, ops, n), op, k) {
      assert BornComplete(Before(capacity, ops, n), op, k) ==> CompleteFrom(capacity, all, k, n);
    } else if CompleteSince(capacity, ops, k) && !Loses(Before(capacity, ops, n), op, k) {
      var i: nat :| i < |ops| && CompleteFrom(capacity, ops, k, i);
      assert CompleteFrom(capacity, all, k, i);
    }
  }

  /** Over every safe run of the flat model, gaps and completeness are what the operations say. */
  lemma {:induction false} FlatGapsExactly(capacity: nat, ops: seq<Op>, k: ProcessKey)
    requires FlatSafeRun(capacity, ops) && k in Before(capacity, ops, |ops|).procs
    ensures var p := Before(capacity, ops, |ops|).procs[k];
            && (forall gap :: gap in p.gaps <==> GapSince(capacity, ops, k, gap))
            && (p.complete <==> CompleteSince(capacity, ops, k))
    decreases |ops|
  {
    hide GapSince;
    hide CompleteSince;
    hide FlatSafe;
    hide FlatStep;
    if ops != [] {
      assert ops == ops[..|ops| - 1] + [ops[|ops| - 1]];
      FlatGapsStep(capacity, ops[..|ops| - 1], ops[|ops| - 1], k);
    }
  }

  lemma {:induction false} FlatGapsStep(capacity: nat, ops: seq<Op>, op: Op, k: ProcessKey)
    requires FlatSafeRun(capacity, ops + [op]) && k in Before(capacity, ops + [op], |ops| + 1).procs
    ensures var p := Before(capacity, ops + [op], |ops| + 1).procs[k];
            && (forall gap :: gap in p.gaps <==> GapSince(capacity, ops + [op], k, gap))
            && (p.complete <==> CompleteSince(capacity, ops + [op], k))
    decreases |ops| + 1, 0
  {
    hide Before;
    hide FlatStep;
    hide FlatSafe;
    hide GapSince;
    hide CompleteSince;
    hide Causes;
    hide Loses;
    hide BornComplete;
    var all, f := ops + [op], Before(capacity, ops, |ops|);
    BeforeMore(capacity, ops, op);
    assert FlatSafe(Before(capacity, all, |ops|), all[|ops|]);
    forall i: nat | i < |ops| ensures FlatSafe(Before(capacity, ops, i), ops[i]) {
      assert FlatSafe(Before(capacity, all, i), all[i]);
    }
    StepGaps(f, op, k);
    forall gap ensures GapSince(capacity, all, k, gap) <==> Causes(f, op, k, gap) || (!Opens(f, op, k) && GapSince(capacity, ops, k, gap)) {
      GapSinceMore(capacity, ops, op, k, gap);
    }
    CompleteSinceMore(capacity, ops, op, k);
    if k in f.procs {
      FlatGapsExactly(capacity, ops, k);
    }
  }

  // ---------------------------------------------------------------- the store's windows

  lemma {:induction false} SafePrefix(s: Store, ops: seq<Op>, i: nat)
    requires SafeRun(s, ops) && i <= |ops|
    ensures SafeRun(s, ops[..i]) && (i < |ops| ==> Safe(Run(s, ops[..i]), ops[i]))
    decreases |ops|
  {
    hide Apply;
    hide Safe;
    if i > 0 {
      SafePrefix(Apply(s, ops[0]), ops[1..], i - 1);
      assert ops[1..][..i - 1] == ops[..i][1..];
    } else {
      assert ops[..0] == [];
    }
  }

  lemma SafeIsFlat(s: Store, op: Op)
    requires Safe(s, op)
    ensures FlatSafe(FlatOf(s), op)
  {
    ProcsSize(s.states);
    assert Live(s).Keys == s.index.Keys;
    if op.Bootstrapped? {
      ProcsAt(s.states, KeyOf(op.process));
    }
  }

  lemma {:induction false} SafeRunIsFlat(capacity: nat, ops: seq<Op>)
    requires SafeRun(Init(capacity), ops)
    ensures FlatSafeRun(capacity, ops)
  {
    hide FlatSafe;
    hide Safe;
    hide FlatRun;
    hide Run;
    forall i: nat | i < |ops| ensures FlatSafe(Before(capacity, ops, i), ops[i]) {
      SafePrefix(Init(capacity), ops, i);
      ReachableFlat(capacity, ops[..i]);
      SafeIsFlat(Run(Init(capacity), ops[..i]), ops[i]);
    }
  }

  /**
   In every safe run, a reported window lists a gap if and only if its reason has come up since the window began, and is
   complete if and only if the process's start was observed or its snapshot missed nothing, it has lost no thread since,
   and the window has no gap.
   */
  lemma {:induction false} WindowGapsExactly(capacity: nat, ops: seq<Op>, k: ProcessKey, w: Window)
    requires SafeRun(Init(capacity), ops) && k in Run(Init(capacity), ops).states && Reports(w, Run(Init(capacity), ops).states[k])
    ensures forall gap :: gap in w.gaps <==> GapSince(capacity, ops, k, gap)
    ensures w.complete <==> CompleteSince(capacity, ops, k) && forall gap :: !GapSince(capacity, ops, k, gap)
  {
    hide FlatRun;
    hide Run;
    hide GapSince;
    hide CompleteSince;
    hide Reports;
    SafeRunIsFlat(capacity, ops);
    ReachableSays(capacity, ops, k, w);
    assert ops[..|ops|] == ops;
    FlatGapsExactly(capacity, ops, k);
    var p := Before(capacity, ops, |ops|).procs[k];
    assert p.gaps == {} <==> forall gap :: gap !in p.gaps;
  }
}
