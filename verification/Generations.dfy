/** The process generation allocator: a bounded table with a lazy eviction queue, and PID-reuse safety over whole runs. */
module Generations {
  import opened Text
  import Counting

  datatype Key = Key(cgroup: nat, tgid: nat)

  datatype Identity = Identity(generation: nat, epoch: nat, startObserved: bool)

  datatype Exec = Exec(eventId: nat, executable: string)

  datatype Entry = Entry(identity: Identity, observedAt: nat, exec: Option<Exec>)

  datatype Reason = BeforeObservation | Evicted | GenerationMismatch

  datatype Correlation = Observed(generation: nat, eventId: nat, executable: string) | Unresolved(reason: Reason)

  datatype Consumed = Consumed(identity: Option<Identity>, correlation: Correlation)

  type Entries = map<Key, Entry>

  /** The queue of (key, generation) pairs; a pair is stale once its key has another generation or none. */
  type Queue = seq<(Key, nat)>

  datatype Store = Store(capacity: nat, epoch: nat, next: nat, entries: Entries, lru: Queue, evicted: set<Key>)

  function Init(capacity: nat, epoch: nat): Store { Store(capacity, epoch, 1, map[], [], {}) }

  predicate ValidText(text: string) { text != [] && |Utf8(text)| <= 256 && '\0' !in text }

  /** `GenerationCorrelation::observed`; nothing stands for its error. */
  function NewObserved(generation: nat, exec: Exec): Option<Correlation> {
    if generation == 0 || !ValidText(exec.executable) then None
    else Some(Observed(generation, exec.eventId, exec.executable))
  }

  function CorrelationOf(e: Entry): Option<Correlation> {
    if e.exec.None? then Some(Unresolved(BeforeObservation)) else NewObserved(e.identity.generation, e.exec.value)
  }

  predicate Live(entries: Entries, p: (Key, nat)) { p.0 in entries && entries[p.0].identity.generation == p.1 }

  datatype Trimmed = Trimmed(entries: Entries, lru: Queue, gone: set<Key>)

  /** The first loop of `enforce_capacity`: pops the queue until the table fits. */
  function Trim(entries: Entries, lru: Queue, capacity: nat): Trimmed
    decreases |lru|
  {
    if |entries| <= capacity || lru == [] then Trimmed(entries, lru, {})
    else if Live(entries, lru[0]) then
      var r := Trim(entries - {lru[0].0}, lru[1..], capacity);
      r.(gone := r.gone + {lru[0].0})
    else Trim(entries, lru[1..], capacity)
  }

  function NewIdentity(s: Store, started: bool): Identity { Identity(s.next, s.epoch, started) }

  function TrimmedWith(s: Store, key: Key, at: nat, started: bool): Trimmed {
    Trim(s.entries[key := Entry(NewIdentity(s, started), at, None)], s.lru + [(key, s.next)], s.capacity)
  }

  /** `allocate`, ending in state `t`; which of too many evicted keys are forgotten is not determined. */
  ghost predicate Allocates(s: Store, key: Key, at: nat, started: bool, t: Store, gone: set<Key>) {
    var r := TrimmedWith(s, key, at, started);
    var all := s.evicted - {key} + r.gone;
    && t == Store(s.capacity, s.epoch, s.next + 1, r.entries, r.lru, t.evicted) && gone == r.gone
    && t.evicted <= all && |t.evicted| == Min(|all|, Max(s.capacity, 1))
  }

  /** `ensure_generation`. */
  ghost predicate Ensures(s: Store, key: Key, at: nat, t: Store, gone: set<Key>, identity: Identity) {
    if key in s.entries then t == s && gone == {} && identity == s.entries[key].identity
    else Allocates(s, key, at, false, t, gone) && identity == NewIdentity(s, false)
  }

  // ---------------------------------------------------------------- events

  datatype Op =
    | Start(key: Key, at: nat)
    | Ensure(key: Key, at: nat)
    | Execute(key: Key, at: nat, exec: Exec)
    | Exit(key: Key, at: nat)

  /**
   What happened: the operation, the identity it returned if any, an exit's correlation, the keys it evicted, and the
   evicted keys it forgot.
   */
  datatype Event = Event(op: Op, identity: Option<Identity>, correlation: Option<Correlation>, gone: set<Key>, forgot: set<Key>)

  ghost function Forgot(s: Store, key: Key, gone: set<Key>, t: Store): set<Key> { s.evicted - {key} + gone - t.evicted }

  function WithExec(s: Store, key: Key, exec: Exec): Store {
    if key in s.entries then s.(entries := s.entries[key := s.entries[key].(exec := Some(exec))]) else s
  }

  /** `consume_exit` once the key has been ensured. */
  ghost predicate Consumes(m: Store, key: Key, at: nat, t: Store, identity: Option<Identity>, correlation: Option<Correlation>) {
    if key !in m.entries then t == m && identity == None && correlation == Some(Unresolved(BeforeObservation))
    else if m.entries[key].observedAt > at then t == m && identity == None && correlation == Some(Unresolved(GenerationMismatch))
    else
      && t == m.(entries := m.entries - {key}) && identity == Some(m.entries[key].identity)
      && correlation == CorrelationOf(m.entries[key])
  }

  ghost predicate Step(s: Store, e: Event, t: Store) {
    && e.forgot == Forgot(s, e.op.key, e.gone, t)
    && (match e.op
        case Start(key, at) =>
          Allocates(s, key, at, true, t, e.gone) && e.identity == Some(NewIdentity(s, true)) && e.correlation == None
        case Ensure(key, at) =>
          e.identity.Some? && Ensures(s, key, at, t, e.gone, e.identity.value) && e.correlation == None
        case Execute(key, at, exec) =>
          && e.identity.Some? && e.correlation == None
          && exists m :: Ensures(s, key, at, m, e.gone, e.identity.value) && t == WithExec(m, key, exec)
        case Exit(key, at) =>
          if key in s.evicted && key !in s.entries then
            t == s && e.gone == {} && e.identity == None && e.correlation == Some(Unresolved(Evicted))
          else exists m, i :: Ensures(s, key, at, m, e.gone, i) && Consumes(m, key, at, t, e.identity, e.correlation))
  }

  // ---------------------------------------------------------------- the queue

  ghost predicate Rising(lru: Queue, below: nat) {
    (forall i :: 0 <= i < |lru| ==> lru[i].1 < below) && (forall i, j :: 0 <= i < j < |lru| ==> lru[i].1 < lru[j].1)
  }

  /** Every live pair is queued. */
  ghost predicate Covered(entries: Entries, lru: Queue) {
    forall k :: k in entries ==> (k, entries[k].identity.generation) in lru
  }

  ghost predicate StoredRight(entries: Entries, epoch: nat, next: nat) {
    forall k :: k in entries ==>
      && 0 < entries[k].identity.generation < next && entries[k].identity.epoch == epoch
      && (entries[k].exec.Some? ==> ValidText(entries[k].exec.value.executable))
  }

  /** No key is both live and evicted. */
  ghost predicate Apart(evicted: set<Key>, entries: Entries) { forall k :: k in evicted ==> k !in entries }

  ghost predicate Inv(s: Store) {
    && s.next >= 1 && Rising(s.lru, s.next) && Covered(s.entries, s.lru) && StoredRight(s.entries, s.epoch, s.next)
    && |s.entries| <= s.capacity && |s.evicted| <= Max(s.capacity, 1) && Apart(s.evicted, s.entries)
  }

  lemma DropPair(entries: Entries, lru: Queue, below: nat)
    requires Rising(lru, below) && Covered(entries, lru) && lru != []
    ensures Rising(lru[1..], below)
    ensures Live(entries, lru[0]) ==> Covered(entries - {lru[0].0}, lru[1..])
    ensures !Live(entries, lru[0]) ==> Covered(entries, lru[1..])
  {
    var rest := lru[1..];
    assert forall i :: 0 <= i < |rest| ==> rest[i] == lru[i + 1];
    assert forall p :: p in lru ==> p == lru[0] || p in rest;
  }

  lemma EmptyQueue(entries: Entries)
    requires Covered(entries, [])
    ensures entries == map[]
  {
    assert entries.Keys == {};
  }

  /** Every key that went is older than every key that stayed. */
  ghost predicate Older(entries: Entries, gone: set<Key>, kept: Entries) {
    forall k, l :: k in gone && k in entries && l in kept && l in entries ==>
      entries[k].identity.generation < entries[l].identity.generation
  }

  ghost predicate TrimmedRight(entries: Entries, capacity: nat, below: nat, r: Trimmed) {
    && Rising(r.lru, below) && Covered(r.entries, r.lru)
    && r.entries == entries - r.gone && r.gone <= entries.Keys && |r.entries| == Min(|entries|, capacity)
    && Older(entries, r.gone, r.entries)
  }

  /** Trimming always reaches the capacity, and what goes is exactly the oldest generations. */
  lemma {:induction false} TrimExact(entries: Entries, lru: Queue, capacity: nat, below: nat)
    requires Rising(lru, below) && Covered(entries, lru)
    ensures TrimmedRight(entries, capacity, below, Trim(entries, lru, capacity))
    decreases |lru|
  {
    hide TrimmedRight;
    hide Covered;
    hide Rising;
    if |entries| <= capacity {
      TrimNothing(entries, lru, capacity, below);
    } else if lru == [] {
      EmptyQueue(entries);
    } else {
      DropPair(entries, lru, below);
      if Live(entries, lru[0]) {
        TrimExact(entries - {lru[0].0}, lru[1..], capacity, below);
        TrimOne(entries, lru, capacity, below, Trim(entries - {lru[0].0}, lru[1..], capacity));
      } else {
        TrimExact(entries, lru[1..], capacity, below);
      }
    }
  }

  lemma TrimNothing(entries: Entries, lru: Queue, capacity: nat, below: nat)
    requires Rising(lru, below) && Covered(entries, lru) && |entries| <= capacity
    ensures TrimmedRight(entries, capacity, below, Trimmed(entries, lru, {}))
  {
    assert entries - {} == entries;
  }

  lemma TrimOne(entries: Entries, lru: Queue, capacity: nat, below: nat, r: Trimmed)
    requires Rising(lru, below) && Covered(entries, lru) && lru != [] && Live(entries, lru[0]) && |entries| > capacity
    requires TrimmedRight(entries - {lru[0].0}, capacity, below, r)
    ensures TrimmedRight(entries, capacity, below, r.(gone := r.gone + {lru[0].0}))
  {
    hide Covered;
    hide Rising;
    hide Older;
    var key := lru[0].0;
    var fewer := entries - {key};
    assert r.entries == entries - (r.gone + {key});
    RemoveOne(entries, key);
    TrimOneOlder(entries, lru, below, r);
  }

  lemma RemoveOne(entries: Entries, key: Key)
    requires key in entries
    ensures |entries - {key}| == |entries| - 1
  {
    assert (entries - {key}).Keys == entries.Keys - {key};
    assert |entries| == |entries.Keys|;
  }

  lemma TrimOneOlder(entries: Entries, lru: Queue, below: nat, r: Trimmed)
    requires Rising(lru, below) && Covered(entries, lru) && lru != [] && Live(entries, lru[0])
    requires r.entries == entries - {lru[0].0} - r.gone && Older(entries - {lru[0].0}, r.gone, r.entries)
    ensures Older(entries, r.gone + {lru[0].0}, r.entries)
  {
    hide Covered;
    hide Rising;
    var key := lru[0].0;
    forall l | l in r.entries ensures entries[key].identity.generation < entries[l].identity.generation {
      OldestFirst(entries, lru, below, l);
    }
  }

  lemma OldestFirst(entries: Entries, lru: Queue, below: nat, l: Key)
    requires Rising(lru, below) && Covered(entries, lru) && lru != [] && Live(entries, lru[0]) && l in entries && l != lru[0].0
    ensures lru[0].1 < entries[l].identity.generation
  {
    var i :| 0 <= i < |lru| && lru[i] == (l, entries[l].identity.generation);
  }

  lemma NewPair(s: Store, key: Key, e: Entry)
    requires Rising(s.lru, s.next) && Covered(s.entries, s.lru) && e.identity.generation == s.next
    ensures Rising(s.lru + [(key, s.next)], s.next + 1) && Covered(s.entries[key := e], s.lru + [(key, s.next)])
  {
    var q := s.lru + [(key, s.next)];
    var more := s.entries[key := e];
    assert q[|s.lru|] == (key, s.next);
    forall k | k in more ensures (k, more[k].identity.generation) in q {
      if k != key {
        assert (k, s.entries[k].identity.generation) in s.lru;
      }
    }
  }

  function NewEntry(s: Store, at: nat, started: bool): Entry { Entry(NewIdentity(s, started), at, None) }

  /** What allocation leaves in the table. */
  ghost predicate Allocated(s: Store, key: Key, e: Entry, entries: Entries, gone: set<Key>) {
    && entries == s.entries[key := e] - gone && |entries| == Min(|s.entries[key := e]|, s.capacity)
    && Older(s.entries[key := e], gone, entries) && gone <= s.entries.Keys + {key}
    && (s.capacity >= 1 ==> key !in gone)
  }

  lemma AllocatedRight(s: Store, key: Key, at: nat, started: bool)
    requires Inv(s)
    ensures var r := TrimmedWith(s, key, at, started);
            && Allocated(s, key, NewEntry(s, at, started), r.entries, r.gone)
            && Rising(r.lru, s.next + 1) && Covered(r.entries, r.lru)
  {
    hide Rising;
    hide Covered;
    hide Trim;
    hide Older;
    var e := NewEntry(s, at, started);
    NewPair(s, key, e);
    TrimExact(s.entries[key := e], s.lru + [(key, s.next)], s.capacity, s.next + 1);
    if s.capacity >= 1 {
      NewestKept(s, key, e, TrimmedWith(s, key, at, started));
    }
  }

  /** The newest generation goes only if everything goes. */
  lemma NewestKept(s: Store, key: Key, e: Entry, r: Trimmed)
    requires StoredRight(s.entries, s.epoch, s.next) && e.identity.generation == s.next && s.capacity >= 1
    requires r.entries == s.entries[key := e] - r.gone && |r.entries| == Min(|s.entries[key := e]|, s.capacity)
    requires Older(s.entries[key := e], r.gone, r.entries)
    ensures key !in r.gone
  {
    var all := s.entries[key := e];
    assert key in all.Keys;
    assert |all| == |all.Keys| >= 1;
    assert |r.entries| >= 1;
    assert r.entries != map[];
    assert r.entries.Keys != {};
    var l :| l in r.entries;
    assert all[l].identity.generation <= all[key].identity.generation;
  }

  lemma AllocatedTable(s: Store, key: Key, e: Entry, entries: Entries, gone: set<Key>)
    requires Allocated(s, key, e, entries, gone)
    ensures entries == s.entries[key := e] - gone && |entries| <= s.capacity
  {}

  lemma AllocatedStored(s: Store, key: Key, e: Entry, entries: Entries, gone: set<Key>)
    requires StoredRight(s.entries, s.epoch, s.next) && s.next >= 1 && e.identity == Identity(s.next, s.epoch, e.identity.startObserved) && e.exec.None?
    requires entries == s.entries[key := e] - gone
    ensures StoredRight(entries, s.epoch, s.next + 1)
  {}

  lemma StillDisjoint(evicted: set<Key>, entries: Entries, key: Key, e: Entry, gone: set<Key>, left: set<Key>)
    requires Apart(evicted, entries) && left <= evicted - {key} + gone
    ensures Apart(left, entries[key := e] - gone)
  {}

  /**
   Allocation keeps the invariant: the table is back within capacity, the keys it evicts are those with the oldest
   generations, and with any capacity at all the new generation is kept.
   */
  lemma AllocateInv(s: Store, key: Key, at: nat, started: bool, t: Store, gone: set<Key>)
    requires Inv(s) && Allocates(s, key, at, started, t, gone)
    ensures Inv(t) && t.next == s.next + 1 && t.capacity == s.capacity
    ensures Allocated(s, key, NewEntry(s, at, started), t.entries, gone)
  {
    hide Inv;
    hide Allocated;
    AllocatedRight(s, key, at, started);
    AllocatedKeeps(s, key, at, started, t, gone, TrimmedWith(s, key, at, started));
  }

  lemma AllocatedKeeps(s: Store, key: Key, at: nat, started: bool, t: Store, gone: set<Key>, r: Trimmed)
    requires Inv(s) && Allocated(s, key, NewEntry(s, at, started), r.entries, gone)
    requires Rising(r.lru, s.next + 1) && Covered(r.entries, r.lru)
    requires t == Store(s.capacity, s.epoch, s.next + 1, r.entries, r.lru, t.evicted)
    requires t.evicted <= s.evicted - {key} + gone && |t.evicted| <= Max(s.capacity, 1)
    ensures Inv(t)
  {
    hide Rising;
    hide Covered;
    hide StoredRight;
    hide Allocated;
    hide Apart;
    var e := NewEntry(s, at, started);
    AllocatedTable(s, key, e, r.entries, gone);
    AllocatedStored(s, key, e, r.entries, gone);
    StillDisjoint(s.evicted, s.entries, key, e, gone, t.evicted);
  }

  // ---------------------------------------------------------------- steps

  lemma EnsureInv(s: Store, key: Key, at: nat, t: Store, gone: set<Key>, i: Identity)
    requires Inv(s) && Ensures(s, key, at, t, gone, i)
    ensures Inv(t) && t.capacity == s.capacity && s.next <= t.next <= s.next + 1
    ensures key in t.entries ==> t.entries[key].identity == i
    ensures forall k :: k in t.entries && k != key ==> k in s.entries && t.entries[k] == s.entries[k] && k !in gone
    ensures key in s.entries ==> t == s && gone == {}
    ensures key !in s.entries && key in t.entries ==> t.entries[key].exec.None? && t.entries[key].observedAt == at && key !in gone
  {
    hide Inv;
    hide Allocates;
    hide Older;
    if key !in s.entries {
      AllocateInv(s, key, at, false, t, gone);
    }
  }

  /** The executables handed in are valid text. */
  predicate Acceptable(op: Op) {
    op.Execute? ==> op.exec.executable != [] && |Utf8(op.exec.executable)| <= 256 && '\0' !in op.exec.executable
  }

  lemma ExecInv(m: Store, key: Key, exec: Exec)
    requires Inv(m) && ValidText(exec.executable)
    ensures Inv(WithExec(m, key, exec))
  {
    hide Rising;
    hide ValidText;
    if key in m.entries {
      var e := m.entries[key].(exec := Some(exec));
      ExecCovered(m.entries, m.lru, key, e);
      assert m.entries[key := e].Keys == m.entries.Keys;
      assert |m.entries[key := e]| == |m.entries[key := e].Keys|;
      assert |m.entries| == |m.entries.Keys|;
    }
  }

  lemma ExecCovered(entries: Entries, lru: Queue, key: Key, e: Entry)
    requires Covered(entries, lru) && key in entries && e.identity == entries[key].identity
    ensures Covered(entries[key := e], lru)
  {
    var more := entries[key := e];
    forall k | k in more ensures (k, more[k].identity.generation) in lru {
      assert (k, entries[k].identity.generation) in lru;
    }
  }

  lemma RemoveInv(m: Store, key: Key)
    requires Inv(m)
    ensures Inv(m.(entries := m.entries - {key}))
  {
    hide Rising;
    hide ValidText;
    var fewer := m.entries - {key};
    assert fewer.Keys == m.entries.Keys - {key};
    Counting.SubsetSize(fewer.Keys, m.entries.Keys);
    assert |fewer| == |fewer.Keys| <= |m.entries.Keys| == |m.entries|;
  }

  lemma StepInv(s: Store, e: Event, t: Store)
    requires Inv(s) && Step(s, e, t) && Acceptable(e.op)
    ensures Inv(t) && t.capacity == s.capacity && s.next <= t.next
  {
    hide Inv;
    hide Allocates;
    match e.op
    case Start(key, at) =>
      AllocateInv(s, key, at, true, t, e.gone);
    case Ensure(key, at) => EnsureInv(s, key, at, t, e.gone, e.identity.value);
    case Execute(key, at, exec) =>
      var m :| Ensures(s, key, at, m, e.gone, e.identity.value) && t == WithExec(m, key, exec);
      EnsureInv(s, key, at, m, e.gone, e.identity.value);
      ExecInv(m, key, exec);
    case Exit(key, at) =>
      if !(key in s.evicted && key !in s.entries) {
        var m, i :| Ensures(s, key, at, m, e.gone, i) && Consumes(m, key, at, t, e.identity, e.correlation);
        EnsureInv(s, key, at, m, e.gone, i);
        RemoveInv(m, key);
      }
  }

  // ---------------------------------------------------------------- runs

  /** `states` are the states between the events of a run. */
  ghost predicate IsRun(states: seq<Store>, events: seq<Event>, capacity: nat, epoch: nat) {
    && |states| == |events| + 1 && states[0] == Init(capacity, epoch)
    && forall i :: 0 <= i < |events| ==> Acceptable(events[i].op) && Step(states[i], events[i], states[i + 1])
  }

  lemma InitInv(capacity: nat, epoch: nat)
    ensures Inv(Init(capacity, epoch))
  {}

  lemma {:induction false} RunInv(states: seq<Store>, events: seq<Event>, capacity: nat, epoch: nat, i: nat)
    requires IsRun(states, events, capacity, epoch) && i < |states|
    ensures Inv(states[i]) && states[i].capacity == capacity
    ensures forall j :: 0 <= j <= i ==> states[j].next <= states[i].next
    decreases i
  {
    hide Step;
    hide Acceptable;
    if i == 0 {
      InitInv(capacity, epoch);
    } else {
      hide Inv;
      RunInv(states, events, capacity, epoch, i - 1);
      assert Step(states[i - 1], events[i - 1], states[i - 1 + 1]);
      StepInv(states[i - 1], events[i - 1], states[i]);
    }
  }

  /** The event begins, executes, consumes or evicts the process under `key`. */
  predicate Touches(e: Event, key: Key) {
    (e.op.key == key && (e.op.Start? || e.op.Execute? || (e.op.Exit? && e.identity.Some?))) || key in e.gone
  }

  /** Event `j` executed `exec` under `key`, was given generation `g`, and nothing has touched the key since. */
  ghost predicate Evidence(events: seq<Event>, j: nat, key: Key, exec: Exec, g: nat) {
    && j < |events| && events[j].op.Execute? && events[j].op.key == key && events[j].op.exec == exec
    && events[j].identity.Some? && events[j].identity.value.generation == g && key !in events[j].gone
    && forall k :: j < k < |events| ==> !Touches(events[k], key)
  }

  ghost predicate Proven(events: seq<Event>, key: Key, exec: Exec, g: nat) {
    exists j :: Evidence(events, j, key, exec, g)
  }

  /** Every stored executable comes from the latest exec of its key and generation, untouched since. */
  ghost predicate AllProven(s: Store, events: seq<Event>) {
    forall k :: k in s.entries && s.entries[k].exec.Some? ==>
      Proven(events, k, s.entries[k].exec.value, s.entries[k].identity.generation)
  }

  lemma StillProven(events: seq<Event>, e: Event, key: Key, exec: Exec, g: nat)
    requires Proven(events, key, exec, g) && !Touches(e, key)
    ensures Proven(events + [e], key, exec, g)
  {
    var j :| Evidence(events, j, key, exec, g);
    var more := events + [e];
    assert forall k :: 0 <= k < |events| ==> more[k] == events[k];
    assert Evidence(more, j, key, exec, g);
  }

  lemma NowProven(events: seq<Event>, e: Event, key: Key, exec: Exec, g: nat)
    requires e.op.Execute? && e.op.key == key && e.op.exec == exec && e.identity.Some? && e.identity.value.generation == g && key !in e.gone
    ensures Proven(events + [e], key, exec, g)
  {
    assert Evidence(events + [e], |events|, key, exec, g);
  }

  /** A key that keeps its evidence through a step was not touched by it. */
  lemma Untouched(s: Store, e: Event, t: Store, k: Key)
    requires Inv(s) && Acceptable(e.op) && Step(s, e, t) && k in t.entries && t.entries[k].exec.Some?
    ensures if e.op.Execute? && e.op.key == k
            then e.identity.Some? && t.entries[k].exec.value == e.op.exec && t.entries[k].identity == e.identity.value && k !in e.gone
            else k in s.entries && t.entries[k] == s.entries[k] && !Touches(e, k)
  {
    hide Inv;
    hide Allocates;
    match e.op
    case Start(key, at) => AllocateInv(s, key, at, true, t, e.gone);
      StartUntouched(s, key, at, t, e.gone, k);
    case Ensure(key, at) => EnsureInv(s, key, at, t, e.gone, e.identity.value);
    case Execute(key, at, exec) =>
      var m :| Ensures(s, key, at, m, e.gone, e.identity.value) && t == WithExec(m, key, exec);
      EnsureInv(s, key, at, m, e.gone, e.identity.value);
    case Exit(key, at) =>
      if !(key in s.evicted && key !in s.entries) {
        var m, i :| Ensures(s, key, at, m, e.gone, i) && Consumes(m, key, at, t, e.identity, e.correlation);
        EnsureInv(s, key, at, m, e.gone, i);
      }
  }

  lemma StartUntouched(s: Store, key: Key, at: nat, t: Store, gone: set<Key>, k: Key)
    requires Inv(s) && Allocates(s, key, at, true, t, gone) && k in t.entries && t.entries[k].exec.Some?
    ensures k != key && k !in gone && k in s.entries && t.entries[k] == s.entries[k]
  {
    AllocateInv(s, key, at, true, t, gone);
  }

  lemma ProvenStep(s: Store, events: seq<Event>, e: Event, t: Store)
    requires Inv(s) && Acceptable(e.op) && Step(s, e, t) && AllProven(s, events)
    ensures AllProven(t, events + [e])
  {
    hide Inv;
    hide Step;
    hide Proven;
    forall k | k in t.entries && t.entries[k].exec.Some?
      ensures Proven(events + [e], k, t.entries[k].exec.value, t.entries[k].identity.generation)
    {
      Untouched(s, e, t, k);
      if e.op.Execute? && e.op.key == k {
        NowProven(events, e, k, e.op.exec, e.identity.value.generation);
      } else {
        StillProven(events, e, k, s.entries[k].exec.value, s.entries[k].identity.generation);
      }
    }
  }

  lemma {:induction false} RunProven(states: seq<Store>, events: seq<Event>, capacity: nat, epoch: nat, i: nat)
    requires IsRun(states, events, capacity, epoch) && i < |states|
    ensures AllProven(states[i], events[..i])
    decreases i
  {
    hide Step;
    hide Inv;
    hide AllProven;
    if i == 0 {
      NothingStored(capacity, epoch, events);
    } else {
      RunProven(states, events, capacity, epoch, i - 1);
      RunInv(states, events, capacity, epoch, i - 1);
      assert Step(states[i - 1], events[i - 1], states[i - 1 + 1]);
      ProvenStep(states[i - 1], events[..i - 1], events[i - 1], states[i]);
      assert events[..i] == events[..i - 1] + [events[i - 1]];
    }
  }

  lemma NothingStored(capacity: nat, epoch: nat, events: seq<Event>)
    ensures AllProven(Init(capacity, epoch), events[..0])
  {}

  /**
   PID-reuse safety, over every run: when an exit reports an observed generation with an exec, the run before it
   holds an exec of the same cgroup and process id with that identifier and executable that was given that same
   generation, and since then nothing has started, executed, consumed or evicted that process.
   */
  lemma ExitNamesItsOwnExec(states: seq<Store>, events: seq<Event>, capacity: nat, epoch: nat, i: nat)
    requires IsRun(states, events, capacity, epoch) && i < |events|
    requires events[i].op.Exit? && events[i].correlation.Some? && events[i].correlation.value.Observed?
    ensures var c := events[i].correlation.value;
            && Proven(events[..i], events[i].op.key, Exec(c.eventId, c.executable), c.generation)
            && events[i].identity.Some? && events[i].identity.value.generation == c.generation > 0
  {
    var s, t, e := states[i], states[i + 1], events[i];
    RunInv(states, events, capacity, epoch, i);
    RunProven(states, events, capacity, epoch, i);
    assert Step(s, e, t);
    ExitFromState(s, e, t);
    assert s.entries[e.op.key].exec.Some?;
  }

  lemma ExitFromState(s: Store, e: Event, t: Store)
    requires Inv(s) && Step(s, e, t) && e.op.Exit? && e.correlation.Some? && e.correlation.value.Observed?
    ensures var c, k := e.correlation.value, e.op.key;
            && k in s.entries && s.entries[k].exec == Some(Exec(c.eventId, c.executable))
            && s.entries[k].identity.generation == c.generation > 0 && s.entries[k].observedAt <= e.op.at
            && e.identity == Some(s.entries[k].identity)
  {
    hide Inv;
    hide Allocates;
    var key, at := e.op.key, e.op.at;
    var m, i :| Ensures(s, key, at, m, e.gone, i) && Consumes(m, key, at, t, e.identity, e.correlation);
    EnsureInv(s, key, at, m, e.gone, i);
  }

  /** An exit always has an answer: the correlation of a stored entry never fails to build. */
  lemma CorrelationNeverFails(s: Store, e: Event, t: Store)
    requires Inv(s) && Step(s, e, t) && e.op.Exit?
    ensures e.correlation.Some?
  {
    var key, at := e.op.key, e.op.at;
    if !(key in s.evicted && key !in s.entries) {
      var m, i :| Ensures(s, key, at, m, e.gone, i) && Consumes(m, key, at, t, e.identity, e.correlation);
      EnsureInv(s, key, at, m, e.gone, i);
      assert Inv(m);
    }
  }

  lemma ExecStored(s: Store, e: Event, t: Store)
    requires Inv(s) && Step(s, e, t) && e.op.Execute? && e.op.key in t.entries
    ensures t.entries[e.op.key].exec == Some(e.op.exec) && t.entries[e.op.key].identity.generation > 0
  {
    hide Ensures;
    var key := e.op.key;
    var m :| Ensures(s, key, e.op.at, m, e.gone, e.identity.value) && t == WithExec(m, key, e.op.exec);
    EnsureInv(s, key, e.op.at, m, e.gone, e.identity.value);
  }

  lemma ExitAnswer(t: Store, x: Event, u: Store)
    requires Step(t, x, u) && x.op.Exit? && x.op.key in t.entries && t.entries[x.op.key].observedAt <= x.op.at
    ensures x.correlation == CorrelationOf(t.entries[x.op.key])
  {
    hide Allocates;
    hide CorrelationOf;
  }

  /**
   And valid text is what that takes: an exit that ends the generation of the exec before it has no answer exactly when
   that exec's executable is not.
   */
  lemma CorrelationFailsExactly(s: Store, e: Event, t: Store, x: Event, u: Store)
    requires Inv(s) && Step(s, e, t) && e.op.Execute? && Step(t, x, u) && x.op.Exit? && x.op.key == e.op.key
    requires e.op.key in t.entries && t.entries[e.op.key].observedAt <= x.op.at
    ensures x.correlation.None? <==> !Acceptable(e.op)
  {
    hide Step;
    hide Inv;
    ExecStored(s, e, t);
    ExitAnswer(t, x, u);
  }

  /** The event was given a generation of its own. */
  ghost predicate IsNew(s: Store, e: Event) { e.identity.Some? && e.identity.value.generation == s.next }

  /** Generations handed out along a run strictly increase, so none is ever given twice. */
  lemma GenerationsIncrease(states: seq<Store>, events: seq<Event>, capacity: nat, epoch: nat, i: nat, j: nat)
    requires IsRun(states, events, capacity, epoch) && i < j < |events| && IsNew(states[i], events[i]) && IsNew(states[j], events[j])
    ensures events[i].identity.value.generation < events[j].identity.value.generation
  {
    hide Inv;
    RunInv(states, events, capacity, epoch, j);
    RunInv(states, events, capacity, epoch, i);
    assert Step(states[i], events[i], states[i + 1]);
    NewAdvances(states[i], events[i], states[i + 1]);
  }

  lemma NewAdvances(s: Store, e: Event, t: Store)
    requires Inv(s) && Step(s, e, t) && IsNew(s, e)
    ensures t.next == s.next + 1
  {
    hide Allocates;
    match e.op
    case Start(key, at) => AllocateInv(s, key, at, true, t, e.gone);
    case Ensure(key, at) => NewEnsured(s, key, at, t, e.gone, e.identity.value);
    case Execute(key, at, exec) =>
      var m :| Ensures(s, key, at, m, e.gone, e.identity.value) && t == WithExec(m, key, exec);
      NewEnsured(s, key, at, m, e.gone, e.identity.value);
    case Exit(key, at) =>
      var m, i :| Ensures(s, key, at, m, e.gone, i) && Consumes(m, key, at, t, e.identity, e.correlation);
      EnsureInv(s, key, at, m, e.gone, i);
      NewEnsured(s, key, at, m, e.gone, i);
  }

  lemma NewEnsured(s: Store, key: Key, at: nat, t: Store, gone: set<Key>, i: Identity)
    requires Inv(s) && Ensures(s, key, at, t, gone, i) && i.generation == s.next
    ensures t.next == s.next + 1
  {
    if key !in s.entries {
      AllocateInv(s, key, at, false, t, gone);
    }
  }
}
