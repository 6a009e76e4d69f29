/** What every answer of the generation store means in terms of the events before it, over whole runs. */
module GenerationHistory {
  import opened Text
  import opened Generations

  // ---------------------------------------------------------------- what the past says of a key

  /** The process under `key` ends with this event: it is evicted, started anew, or its exit is consumed. */
  predicate Over(e: Event, key: Key) {
    key in e.gone || (e.op.key == key && (e.op.Start? || (e.op.Exit? && e.identity.Some?)))
  }

  /** Event `j` saw the process under `key`, which is still the same one. */
  ghost predicate Holds(events: seq<Event>, j: nat, key: Key) {
    && j < |events| && events[j].op.key == key && !events[j].op.Exit? && key !in events[j].gone
    && forall k :: j < k < |events| ==> !Over(events[k], key)
  }

  /** Event `j` was the first to see the process that is now under `key`. */
  ghost predicate Began(events: seq<Event>, j: nat, key: Key) {
    Holds(events, j, key) && forall i: nat :: i < j ==> !Holds(events, i, key)
  }

  ghost predicate Present(events: seq<Event>, key: Key) { exists j: nat :: Began(events, j, key) }

  /** Event `j` evicted `key`, which has been neither forgotten nor seen since, except by exits. */
  ghost predicate EvictedAt(events: seq<Event>, j: nat, key: Key) {
    && j < |events| && key in events[j].gone && key !in events[j].forgot
    && forall k :: j < k < |events| ==> key !in events[k].forgot && (events[k].op.key == key ==> events[k].op.Exit?)
  }

  ghost predicate WasEvicted(events: seq<Event>, key: Key) { exists j: nat :: EvictedAt(events, j, key) }

  // ---------------------------------------------------------------- one more event

  lemma HoldsMore(events: seq<Event>, e: Event, key: Key)
    ensures var more := events + [e];
            && (forall j: nat :: j < |events| ==> (Holds(more, j, key) <==> Holds(events, j, key) && !Over(e, key)))
            && (Holds(more, |events|, key) <==> e.op.key == key && !e.op.Exit? && key !in e.gone)
  {
    var more := events + [e];
    assert more[|events|] == e && forall k :: 0 <= k < |events| ==> more[k] == events[k];
    forall j: nat | j < |events| ensures Holds(more, j, key) <==> Holds(events, j, key) && !Over(e, key) {
      if Holds(more, j, key) {
        assert !Over(more[|events|], key);
        assert forall k :: j < k < |events| ==> !Over(more[k], key);
      }
    }
  }

  lemma BeganMore(events: seq<Event>, e: Event, key: Key)
    ensures var more := events + [e];
            && (forall j: nat :: j < |events| ==> (Began(more, j, key) <==> Began(events, j, key) && !Over(e, key)))
            && (Began(more, |events|, key) <==>
                e.op.key == key && !e.op.Exit? && key !in e.gone && (Over(e, key) || !Present(events, key)))
  {
    var more := events + [e];
    HoldsMore(events, e, key);
    hide Holds;
    forall j: nat | j < |events| ensures Began(more, j, key) <==> Began(events, j, key) && !Over(e, key) {}
    if Present(events, key) {
      var j: nat :| Began(events, j, key);
      assert Holds(events, j, key) && j < |events| by { BeganHolds(events, j, key); }
      assert Holds(more, j, key) <==> !Over(e, key);
    } else {
      forall i: nat | i < |events| ensures !Holds(events, i, key) {
        if Holds(events, i, key) {
          FirstHolds(events, i, key);
        }
      }
    }
  }

  lemma BeganHolds(events: seq<Event>, j: nat, key: Key)
    requires Began(events, j, key)
    ensures Holds(events, j, key) && j < |events|
  {}

  /** Of the events that saw the process there is a first. */
  lemma {:induction false} FirstHolds(events: seq<Event>, j: nat, key: Key)
    requires Holds(events, j, key)
    ensures Present(events, key)
    decreases j
  {
    if i: nat :| i < j && Holds(events, i, key) {
      FirstHolds(events, i, key);
    } else {
      assert Began(events, j, key);
    }
  }

  lemma EvictedMore(events: seq<Event>, e: Event, key: Key)
    ensures WasEvicted(events + [e], key) <==>
            key !in e.forgot && (key in e.gone || (WasEvicted(events, key) && (e.op.key == key ==> e.op.Exit?)))
  {
    var more := events + [e];
    assert more[|events|] == e && forall k :: 0 <= k < |events| ==> more[k] == events[k];
    if WasEvicted(more, key) {
      var j: nat :| EvictedAt(more, j, key);
      if j < |events| {
        assert EvictedAt(events, j, key);
        assert key !in more[|events|].forgot;
      }
    }
    if key !in e.forgot && key in e.gone {
      assert EvictedAt(more, |events|, key);
    } else if key !in e.forgot && WasEvicted(events, key) && (e.op.key == key ==> e.op.Exit?) {
      var j: nat :| EvictedAt(events, j, key);
      assert EvictedAt(more, j, key);
    }
  }

  // ---------------------------------------------------------------- what a step does to one key

  lemma EnsureKey(s: Store, key: Key, at: nat, t: Store, gone: set<Key>, i: Identity)
    requires Inv(s) && Ensures(s, key, at, t, gone, i)
    ensures key in s.entries ==> t == s && gone == {} && i == s.entries[key].identity
    ensures key !in s.entries ==> i == Identity(s.next, s.epoch, false)
    ensures key !in s.entries && key !in gone ==> key in t.entries && t.entries[key] == Entry(i, at, None)
    ensures forall k :: k in gone ==> k !in t.entries
    ensures forall k :: k != key && k !in gone ==> (k in t.entries <==> k in s.entries) && (k in s.entries ==> t.entries[k] == s.entries[k])
    ensures key !in s.entries ==> t.evicted <= s.evicted - {key} + gone
    ensures s.capacity >= 1 ==> key !in gone
  {
    hide Inv;
    hide Older;
    if key !in s.entries {
      AllocateInv(s, key, at, false, t, gone);
    }
  }

  lemma StartKey(s: Store, key: Key, at: nat, t: Store, gone: set<Key>)
    requires Inv(s) && Allocates(s, key, at, true, t, gone)
    ensures key !in gone ==> key in t.entries && t.entries[key] == Entry(Identity(s.next, s.epoch, true), at, None)
    ensures forall k :: k in gone ==> k !in t.entries
    ensures forall k :: k != key && k !in gone ==> (k in t.entries <==> k in s.entries) && (k in s.entries ==> t.entries[k] == s.entries[k])
    ensures t.evicted <= s.evicted - {key} + gone
  {
    hide Inv;
    hide Older;
    AllocateInv(s, key, at, true, t, gone);
  }

  /** What an event leaves under its own key, unless it evicts it. */
  ghost predicate OwnKey(s: Store, e: Event, t: Store) {
    var k, at := e.op.key, e.op.at;
    match e.op
    case Start(_, _) => e.identity.Some? && k in t.entries && t.entries[k] == Entry(e.identity.value, at, None)
    case Ensure(_, _) =>
      && e.identity.Some? && k in t.entries
      && t.entries[k] == if k in s.entries then s.entries[k] else Entry(e.identity.value, at, None)
    case Execute(_, _, exec) =>
      && e.identity.Some? && k in t.entries
      && t.entries[k] == (if k in s.entries then s.entries[k] else Entry(e.identity.value, at, None)).(exec := Some(exec))
    case Exit(_, _) =>
      if e.identity.Some? || k !in s.entries then k !in t.entries else k in t.entries && t.entries[k] == s.entries[k]
  }

  /** Which identity an operation other than an exit returns. */
  ghost predicate OwnIdentity(s: Store, e: Event) {
    var k := e.op.key;
    e.op.Exit? ||
    (e.identity == Some(if e.op.Start? then Identity(s.next, s.epoch, true)
                        else if k in s.entries then s.entries[k].identity
                        else Identity(s.next, s.epoch, false)))
  }

  lemma StepKey(s: Store, e: Event, t: Store)
    requires Inv(s) && Step(s, e, t)
    ensures OwnIdentity(s, e) && (e.op.key !in e.gone ==> OwnKey(s, e, t))
    ensures forall k :: k in e.gone ==> k !in t.entries
    ensures forall k :: k != e.op.key && k !in e.gone ==> (k in t.entries <==> k in s.entries) && (k in s.entries ==> t.entries[k] == s.entries[k])
  {
    hide Inv;
    hide Allocates;
    match e.op
    case Start(key, at) => StartKey(s, key, at, t, e.gone);
    case Ensure(key, at) => EnsureKey(s, key, at, t, e.gone, e.identity.value);
    case Execute(key, at, exec) =>
      var m :| Ensures(s, key, at, m, e.gone, e.identity.value) && t == WithExec(m, key, exec);
      EnsureKey(s, key, at, m, e.gone, e.identity.value);
    case Exit(key, at) =>
      if !(key in s.evicted && key !in s.entries) {
        var m, i :| Ensures(s, key, at, m, e.gone, i) && Consumes(m, key, at, t, e.identity, e.correlation);
        EnsureKey(s, key, at, m, e.gone, i);
      }
  }

  lemma InvApart(s: Store)
    requires Inv(s)
    ensures Apart(s.evicted, s.entries)
  {}

  lemma StepEvicted(s: Store, e: Event, t: Store, k: Key)
    requires Inv(s) && Step(s, e, t)
    ensures k in t.evicted <==> k !in e.forgot && (k in e.gone || (k in s.evicted && (e.op.key == k ==> e.op.Exit?)))
  {
    hide Allocates;
    hide Inv;
    InvApart(s);
    match e.op
    case Start(key, at) => StartKey(s, key, at, t, e.gone);
    case Ensure(key, at) => EnsureKey(s, key, at, t, e.gone, e.identity.value);
    case Execute(key, at, exec) =>
      var m :| Ensures(s, key, at, m, e.gone, e.identity.value) && t == WithExec(m, key, exec);
      EnsureKey(s, key, at, m, e.gone, e.identity.value);
    case Exit(key, at) =>
      if !(key in s.evicted && key !in s.entries) {
        var m, i :| Ensures(s, key, at, m, e.gone, i) && Consumes(m, key, at, t, e.identity, e.correlation);
        EnsureKey(s, key, at, m, e.gone, i);
      }
  }

  // ---------------------------------------------------------------- the table and the past

  /** The entry under a key is what the past says of it. */
  ghost predicate Recorded(s: Store, events: seq<Event>, key: Key) {
    && (key in s.entries <==> Present(events, key))
    && (forall j: nat :: j < |events| && Began(events, j, key) ==>
          && key in s.entries && events[j].op.at == s.entries[key].observedAt
          && events[j].identity == Some(s.entries[key].identity)
          && s.entries[key].identity.startObserved == events[j].op.Start?)
    && (key in s.evicted <==> WasEvicted(events, key))
  }

  ghost predicate ExecRecorded(s: Store, events: seq<Event>, key: Key) {
    forall exec, g :: Proven(events, key, exec, g) ==>
      key in s.entries && s.entries[key].exec == Some(exec) && s.entries[key].identity.generation == g
  }

  lemma RecordedStep(s: Store, events: seq<Event>, e: Event, t: Store, key: Key)
    requires Inv(s) && Step(s, e, t) && Recorded(s, events, key)
    ensures Recorded(t, events + [e], key)
  {
    hide Inv;
    hide Step;
    hide Began;
    hide WasEvicted;
    var more := events + [e];
    StepKey(s, e, t);
    StepEvicted(s, e, t, key);
    EvictedMore(events, e, key);
    BeganMore(events, e, key);
    PresentMore(events, e, key);
    forall j: nat | j < |more| && Began(more, j, key)
      ensures && key in t.entries && more[j].op.at == t.entries[key].observedAt
              && more[j].identity == Some(t.entries[key].identity)
              && t.entries[key].identity.startObserved == more[j].op.Start?
    {
      BeganHolds(more, j, key);
      if j < |events| {
        assert more[j] == events[j] && Began(events, j, key);
      } else {
        assert more[j] == e;
      }
    }
  }

  lemma PresentMore(events: seq<Event>, e: Event, key: Key)
    ensures Present(events + [e], key) <==>
            (Present(events, key) && !Over(e, key)) || (e.op.key == key && !e.op.Exit? && key !in e.gone)
  {
    hide Began;
    var more := events + [e];
    BeganMore(events, e, key);
    if Present(more, key) {
      var j: nat :| Began(more, j, key);
      BeganHolds(more, j, key);
    }
    if Present(events, key) && !Over(e, key) {
      var j: nat :| Began(events, j, key);
      BeganHolds(events, j, key);
      assert Began(more, j, key);
    }
  }

  lemma ProvenLess(events: seq<Event>, e: Event, key: Key, exec: Exec, g: nat)
    requires Proven(events + [e], key, exec, g)
    ensures if e.op.Execute? && e.op.key == key then e.op.exec == exec && e.identity.Some? && e.identity.value.generation == g && key !in e.gone
            else Proven(events, key, exec, g) && !Touches(e, key)
  {
    var more := events + [e];
    assert more[|events|] == e && forall k :: 0 <= k < |events| ==> more[k] == events[k];
    var j: nat :| Evidence(more, j, key, exec, g);
    if j < |events| {
      assert !Touches(more[|events|], key);
      assert Evidence(events, j, key, exec, g);
    }
  }

  lemma ExecRecordedStep(s: Store, events: seq<Event>, e: Event, t: Store, key: Key)
    requires Inv(s) && Step(s, e, t) && ExecRecorded(s, events, key)
    ensures ExecRecorded(t, events + [e], key)
  {
    hide Inv;
    hide Step;
    hide Proven;
    StepKey(s, e, t);
    forall exec, g | Proven(events + [e], key, exec, g)
      ensures key in t.entries && t.entries[key].exec == Some(exec) && t.entries[key].identity.generation == g
    {
      ProvenLess(events, e, key, exec, g);
    }
  }

  lemma {:induction false} RunRecorded(states: seq<Store>, events: seq<Event>, capacity: nat, epoch: nat, i: nat, key: Key)
    requires IsRun(states, events, capacity, epoch) && i < |states|
    ensures Recorded(states[i], events[..i], key) && ExecRecorded(states[i], events[..i], key)
    decreases i
  {
    hide Step;
    hide Inv;
    hide Recorded;
    hide ExecRecorded;
    if i == 0 {
      NothingRecorded(capacity, epoch, events, key);
    } else {
      RunRecorded(states, events, capacity, epoch, i - 1, key);
      RunInv(states, events, capacity, epoch, i - 1);
      assert Step(states[i - 1], events[i - 1], states[i - 1 + 1]);
      RecordedStep(states[i - 1], events[..i - 1], events[i - 1], states[i], key);
      ExecRecordedStep(states[i - 1], events[..i - 1], events[i - 1], states[i], key);
      assert events[..i] == events[..i - 1] + [events[i - 1]];
    }
  }

  lemma NothingRecorded(capacity: nat, epoch: nat, events: seq<Event>, key: Key)
    ensures Recorded(Init(capacity, epoch), events[..0], key) && ExecRecorded(Init(capacity, epoch), events[..0], key)
  {
    assert events[..0] == [];
  }

  // ---------------------------------------------------------------- what an answer means

  /** The process under the key was first seen after `at`. */
  ghost predicate SeenLater(events: seq<Event>, key: Key, at: nat) {
    exists j: nat :: j < |events| && Began(events, j, key) && events[j].op.at > at
  }

  /** What an exit returns, from the table. */
  lemma ExitFromTable(s: Store, e: Event, t: Store)
    requires Inv(s) && Step(s, e, t) && e.op.Exit?
    ensures var k, at := e.op.key, e.op.at;
            if k in s.evicted then e.identity == None && e.correlation == Some(Unresolved(Evicted))
            else if k !in s.entries then
              && e.correlation == Some(Unresolved(BeforeObservation))
              && e.identity == if s.capacity == 0 then None else Some(Identity(s.next, s.epoch, false))
            else if s.entries[k].observedAt > at then e.identity == None && e.correlation == Some(Unresolved(GenerationMismatch))
            else
              && e.identity == Some(s.entries[k].identity)
              && e.correlation == Some(if s.entries[k].exec.None? then Unresolved(BeforeObservation)
                                       else Observed(s.entries[k].identity.generation, s.entries[k].exec.value.eventId,
                                                     s.entries[k].exec.value.executable))
  {
    hide Allocates;
    hide Rising;
    hide Covered;
    var key, at := e.op.key, e.op.at;
    if !(key in s.evicted && key !in s.entries) {
      var m, i :| Ensures(s, key, at, m, e.gone, i) && Consumes(m, key, at, t, e.identity, e.correlation);
      EnsureKey(s, key, at, m, e.gone, i);
      if s.capacity == 0 {
        NoRoom(s, key, at, m, e.gone, i);
      }
    }
  }

  lemma NoRoom(s: Store, key: Key, at: nat, m: Store, gone: set<Key>, i: Identity)
    requires Inv(s) && Ensures(s, key, at, m, gone, i) && s.capacity == 0
    ensures m.entries == map[]
  {
    hide Inv;
    EnsureInv(s, key, at, m, gone, i);
    assert |m.entries| <= m.capacity by { InvCapacity(m); }
  }

  lemma InvCapacity(s: Store)
    requires Inv(s)
    ensures |s.entries| <= s.capacity
  {}

  /**
   What every exit of every run answers, told from the events before it. It is `Evicted` exactly when the key was evicted
   and neither forgotten nor seen since; `GenerationMismatch` exactly when the process under the key was first seen after
   the exit's time; otherwise it names an exec exactly when that exec was the last thing to happen to the process, and is
   `BeforeObservation` exactly when there is none.
   */
  lemma {:induction false} ExitAnswersExactly(states: seq<Store>, events: seq<Event>, capacity: nat, epoch: nat, i: nat)
    requires IsRun(states, events, capacity, epoch) && i < |events| && events[i].op.Exit?
    ensures var e, past := events[i], events[..i];
            var key, evicted, later := e.op.key, WasEvicted(past, e.op.key), SeenLater(past, e.op.key, e.op.at);
            && (e.correlation == Some(Unresolved(Evicted)) <==> evicted)
            && (e.correlation == Some(Unresolved(GenerationMismatch)) <==> later)
            && (forall g, id, exe :: e.correlation == Some(Observed(g, id, exe)) <==> !later && Proven(past, key, Exec(id, exe), g))
            && (e.correlation == Some(Unresolved(BeforeObservation)) <==>
                !evicted && !later && forall exec, g :: !Proven(past, key, exec, g))
            && (e.identity.Some? <==> !evicted && !later && (capacity > 0 || Present(past, key)))
  {
    var s, t, e, past := states[i], states[i + 1], events[i], events[..i];
    RunInv(states, events, capacity, epoch, i);
    RunProven(states, events, capacity, epoch, i);
    RunRecorded(states, events, capacity, epoch, i, e.op.key);
    assert Step(s, e, t);
    ExitFromTable(s, e, t);
    ExitExact(s, e, past, capacity);
  }

  lemma ExitExact(s: Store, e: Event, past: seq<Event>, capacity: nat)
    requires Recorded(s, past, e.op.key) && ExecRecorded(s, past, e.op.key) && AllProven(s, past) && Apart(s.evicted, s.entries)
    requires s.capacity == capacity && e.op.Exit?
    requires var k, at := e.op.key, e.op.at;
             if k in s.evicted then e.identity == None && e.correlation == Some(Unresolved(Evicted))
             else if k !in s.entries then
               e.correlation == Some(Unresolved(BeforeObservation)) && (e.identity.None? <==> capacity == 0)
             else if s.entries[k].observedAt > at then e.identity == None && e.correlation == Some(Unresolved(GenerationMismatch))
             else
               && e.identity == Some(s.entries[k].identity)
               && e.correlation == Some(if s.entries[k].exec.None? then Unresolved(BeforeObservation)
                                        else Observed(s.entries[k].identity.generation, s.entries[k].exec.value.eventId,
                                                      s.entries[k].exec.value.executable))
    ensures var key, evicted, later := e.op.key, WasEvicted(past, e.op.key), SeenLater(past, e.op.key, e.op.at);
            && (e.correlation == Some(Unresolved(Evicted)) <==> evicted)
            && (e.correlation == Some(Unresolved(GenerationMismatch)) <==> later)
            && (forall g, id, exe :: e.correlation == Some(Observed(g, id, exe)) <==> !later && Proven(past, key, Exec(id, exe), g))
            && (e.correlation == Some(Unresolved(BeforeObservation)) <==>
                !evicted && !later && forall exec, g :: !Proven(past, key, exec, g))
            && (e.identity.Some? <==> !evicted && !later && (capacity > 0 || Present(past, key)))
  {
    hide Began;
    hide WasEvicted;
    hide Proven;
    var k, at := e.op.key, e.op.at;
    if k in s.entries {
      var j: nat :| Began(past, j, k);
      BeganHolds(past, j, k);
      assert SeenLater(past, k, at) <==> s.entries[k].observedAt > at;
      if s.entries[k].exec.Some? {
        assert Proven(past, k, s.entries[k].exec.value, s.entries[k].identity.generation);
        var exec := s.entries[k].exec.value;
        assert exec == Exec(exec.eventId, exec.executable);
      }
    } else {
      assert !Present(past, k);
      assert !SeenLater(past, k, at);
    }
  }

  /**
   What every other operation of every run returns: a start gets a generation of its own, marked as observed; any other
   operation gets the identity of the process it belongs to, if that has been seen, and one of its own, not observed, if not.
   */
  lemma {:induction false} IdentityExactly(states: seq<Store>, events: seq<Event>, capacity: nat, epoch: nat, i: nat)
    requires IsRun(states, events, capacity, epoch) && i < |events| && !events[i].op.Exit?
    ensures var e, past := events[i], events[..i];
            && e.identity.Some? && e.identity.value.epoch == epoch
            && (forall j: nat :: j < |past| && Began(past, j, e.op.key) && !e.op.Start? ==> e.identity == past[j].identity)
            && (e.op.Start? || !Present(past, e.op.key) ==> IsNew(states[i], e) && e.identity.value.startObserved == e.op.Start?)
  {
    var s, e := states[i], events[i];
    RunInv(states, events, capacity, epoch, i);
    RunEpoch(states, events, capacity, epoch, i);
    RunRecorded(states, events, capacity, epoch, i, e.op.key);
    assert Step(s, e, states[i + 1]);
    hide Began;
    StepKey(s, e, states[i + 1]);
  }

  lemma {:induction false} RunEpoch(states: seq<Store>, events: seq<Event>, capacity: nat, epoch: nat, i: nat)
    requires IsRun(states, events, capacity, epoch) && i < |states|
    ensures states[i].epoch == epoch
    decreases i
  {
    hide Inv;
    hide Step;
    if i > 0 {
      RunEpoch(states, events, capacity, epoch, i - 1);
      assert Step(states[i - 1], events[i - 1], states[i - 1 + 1]);
      StepEpoch(states[i - 1], events[i - 1], states[i]);
    }
  }

  lemma StepEpoch(s: Store, e: Event, t: Store)
    requires Step(s, e, t)
    ensures t.epoch == s.epoch
  {
    hide TrimmedWith;
  }

  // ---------------------------------------------------------------- what is evicted and forgotten

  /** The operation needs a generation of its own. */
  ghost predicate Needs(s: Store, op: Op) {
    op.Start? || (op.key !in s.entries && !(op.Exit? && op.key in s.evicted))
  }

  lemma KeysSplit(all: set<Key>, gone: set<Key>)
    requires gone <= all
    ensures |all - gone| == |all| - |gone|
  {
    assert all == (all - gone) + gone;
  }

  lemma RoomNeeded(s: Store, key: Key, e: Entry, entries: Entries, gone: set<Key>)
    requires Allocated(s, key, e, entries, gone)
    ensures |gone| == if |s.entries.Keys + {key}| > s.capacity then |s.entries.Keys + {key}| - s.capacity else 0
  {
    hide Older;
    var all := s.entries[key := e];
    assert all.Keys == s.entries.Keys + {key};
    assert entries.Keys == all.Keys - gone;
    assert |all| == |all.Keys| && |entries| == |entries.Keys|;
    KeysSplit(all.Keys, gone);
  }

  /** Of two keys other than the new one, the one evicted is older than the one kept. */
  ghost predicate OlderGo(s: Store, key: Key, kept: set<Key>, gone: set<Key>) {
    forall k, l :: k in gone && l in kept && k != key && l != key ==>
      k in s.entries && l in s.entries && s.entries[k].identity.generation < s.entries[l].identity.generation
  }

  lemma OldestGo(s: Store, key: Key, e: Entry, entries: Entries, gone: set<Key>)
    requires Allocated(s, key, e, entries, gone)
    ensures OlderGo(s, key, entries.Keys, gone)
  {
    var all := s.entries[key := e];
    forall k, l | k in gone && l in entries.Keys && k != key && l != key
      ensures k in s.entries && l in s.entries && s.entries[k].identity.generation < s.entries[l].identity.generation
    {
      assert k in all && l in all && all[k] == s.entries[k] && all[l] == s.entries[l];
    }
  }

  /** So many keys are over the limit, which is at least one. */
  function Excess(kept: nat, capacity: nat): nat {
    var most := if capacity == 0 then 1 else capacity;
    if kept > most then kept - most else 0
  }

  /** What an operation that needs a generation evicts and forgets. */
  ghost predicate Makes(s: Store, key: Key, kept: set<Key>, gone: set<Key>, forgot: set<Key>) {
    && |gone| == (if |s.entries.Keys + {key}| > s.capacity then |s.entries.Keys + {key}| - s.capacity else 0)
    && OlderGo(s, key, kept, gone) && (key in gone ==> s.capacity == 0)
    && forgot <= s.evicted - {key} + gone && |forgot| == Excess(|s.evicted - {key} + gone|, s.capacity)
  }

  lemma ForgotExcess(all: set<Key>, left: set<Key>, capacity: nat)
    requires left <= all && |left| == Min(|all|, Max(capacity, 1))
    ensures |all - left| == Excess(|all|, capacity)
  {
    KeysSplit(all, left);
  }

  lemma AllocateMakes(s: Store, key: Key, at: nat, started: bool, t: Store, gone: set<Key>)
    requires Inv(s) && Allocates(s, key, at, started, t, gone)
    ensures Makes(s, key, t.entries.Keys, gone, Forgot(s, key, gone, t))
  {
    hide Inv;
    hide TrimmedWith;
    hide OlderGo;
    hide Excess;
    AllocateInv(s, key, at, started, t, gone);
    var e := NewEntry(s, at, started);
    RoomNeeded(s, key, e, t.entries, gone);
    OldestGo(s, key, e, t.entries, gone);
    ForgotExcess(s.evicted - {key} + gone, t.evicted, s.capacity);
  }

  lemma EnsureMakes(s: Store, key: Key, at: nat, m: Store, gone: set<Key>, i: Identity)
    requires Inv(s) && Ensures(s, key, at, m, gone, i)
    ensures if key in s.entries then m == s && gone == {} && key !in s.evicted else Makes(s, key, m.entries.Keys, gone, Forgot(s, key, gone, m))
  {
    hide Allocates;
    hide Makes;
    InvApart(s);
    if key !in s.entries {
      AllocateMakes(s, key, at, false, m, gone);
    }
  }

  lemma FewerKept(s: Store, key: Key, kept: set<Key>, fewer: set<Key>, gone: set<Key>, forgot: set<Key>)
    requires Makes(s, key, kept, gone, forgot) && fewer <= kept
    ensures Makes(s, key, fewer, gone, forgot)
  {
    hide OlderGo;
    hide Excess;
    FewerOlder(s, key, kept, fewer, gone);
  }

  lemma FewerOlder(s: Store, key: Key, kept: set<Key>, fewer: set<Key>, gone: set<Key>)
    requires OlderGo(s, key, kept, gone) && fewer <= kept
    ensures OlderGo(s, key, fewer, gone)
  {
    forall k, l | k in gone && l in fewer && k != key && l != key
      ensures k in s.entries && l in s.entries && s.entries[k].identity.generation < s.entries[l].identity.generation
    {
      assert l in kept;
    }
  }

  lemma EvictsOne(s: Store, e: Event, t: Store)
    requires Inv(s) && Step(s, e, t)
    ensures if Needs(s, e.op) then Makes(s, e.op.key, t.entries.Keys, e.gone, e.forgot) else e.gone == {} && e.forgot == {}
  {
    hide Allocates;
    hide Inv;
    hide Makes;
    InvApart(s);
    match e.op
    case Start(key, at) => AllocateMakes(s, key, at, true, t, e.gone);
    case Ensure(key, at) => EnsureMakes(s, key, at, t, e.gone, e.identity.value);
    case Execute(key, at, exec) =>
      var m :| Ensures(s, key, at, m, e.gone, e.identity.value) && t == WithExec(m, key, exec);
      EnsureMakes(s, key, at, m, e.gone, e.identity.value);
      assert t.entries.Keys == m.entries.Keys;
    case Exit(key, at) =>
      if !(key in s.evicted && key !in s.entries) {
        var m, i :| Ensures(s, key, at, m, e.gone, i) && Consumes(m, key, at, t, e.identity, e.correlation);
        EnsureMakes(s, key, at, m, e.gone, i);
        assert t.entries.Keys <= m.entries.Keys && t.evicted == m.evicted;
        if key !in s.entries {
          FewerKept(s, key, m.entries.Keys, t.entries.Keys, e.gone, e.forgot);
        }
      }
  }

  /**
   In every run an event evicts keys only when it needs a generation and the table is full, no more than needed, and the
   oldest; and of the evicted keys it forgets only as many as are too many.
   */
  lemma {:induction false} EvictsExactly(states: seq<Store>, events: seq<Event>, capacity: nat, epoch: nat, i: nat)
    requires IsRun(states, events, capacity, epoch) && i < |events|
    ensures var s, e, t := states[i], events[i], states[i + 1];
            if Needs(s, e.op) then Makes(s, e.op.key, t.entries.Keys, e.gone, e.forgot) else e.gone == {} && e.forgot == {}
  {
    hide Step;
    hide Inv;
    hide Makes;
    RunInv(states, events, capacity, epoch, i);
    assert Step(states[i], events[i], states[i + 1]);
    EvictsOne(states[i], events[i], states[i + 1]);
  }
}
