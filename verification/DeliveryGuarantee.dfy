/** What every interleaving of agent, connections, server and retention guarantees. */
module DeliveryGuarantee {
  import opened Text
  import opened Delivery
  import opened DeliveryProtocol
  import opened Ingestion
  import DR = DeliveryRuns
  import Counting

  lemma StepInv(s: System, step: Step, m: nat) returns (n: nat)
    requires Inv(s, m) && Enabled(s, step)
    ensures Inv(Apply(s, step), n) && m <= n
  {
    hide DR.BufferInv;
    hide ChannelInv;
    hide ServerInv;
    n := m;
    match step
    case PushStep(e) => PushStepInv(s, e, m);
    case ConnectStep(replay) => ConnectStepInv(s, replay, m);
    case SendStep => SendStepInv(s, m);
    case DisconnectStep =>
    case DeliverStep(c) => n := DeliverStepInv(s, c, m);
    case AckStep(q) => AckStepInv(s, q, m);
    case CloseStep(boundary, gone) => CloseStepInv(s, boundary, gone, m);
  }

  lemma {:induction false} RunInv(s: System, steps: seq<Step>, m: nat) returns (n: nat)
    requires Inv(s, m) && Legal(s, steps)
    ensures Inv(Run(s, steps), n)
    decreases |steps|
  {
    hide Inv;
    hide Enabled;
    hide Apply;
    n := m;
    if steps != [] {
      n := StepInv(s, steps[0], m);
      n := RunInv(Apply(s, steps[0]), steps[1..], n);
    }
  }

  // ---------------------------------------------------------------- what every run satisfies

  /** Queued, waiting for its acknowledgement, stored, or closed over by retention. */
  ghost predicate AccountedFor(s: System, e: Event) {
    e in s.buffer.queued || (exists q :: q in s.buffer.pending && e in s.buffer.pending[q]) || Settled(s.server, e)
  }

  lemma InvMeaning(s: System, m: nat)
    requires Inv(s, m)
    ensures forall e :: e in s.history.accepted ==> AccountedFor(s, e)
    ensures DistinctIds(s.server.log)
    ensures Subsequence(s.server.log, DR.Flatten(s.history.batches[..m])) && DR.Flatten(s.history.batches[..m]) <= s.history.accepted
  {
    hide ChannelInv;
    var b, h := s.buffer, s.history;
    FlattenPrefix(h.batches, m);
    forall e | e in h.accepted ensures AccountedFor(s, e) {
      if e !in b.queued {
        FlattenSource(h.batches, e);
        var i :| 0 <= i < |h.batches| && e in h.batches[i];
        if i + 1 in b.pending {
          assert e in b.pending[i + 1];
        } else {
          assert i + 1 in s.committed;
          FlattenMember(h.batches[..m], i);
        }
      }
    }
  }

  /**
   Over any interleaving of pushes, connections, sends, disconnections, deliveries, acknowledgements and
   retention: every event the buffer accepted is queued, pending, stored or expired; no identifier is ever
   inserted twice, even after retention has removed it; and rows are inserted in the order of the pushes.
   */
  lemma ExactlyOnceInOrder(capacity: nat, batchSize: nat, closed: Option<int>, steps: seq<Step>) returns (m: nat)
    requires 0 < batchSize <= capacity && Legal(Initial(capacity, batchSize, closed), steps)
    ensures var s := Run(Initial(capacity, batchSize, closed), steps);
            && (forall e :: e in s.history.accepted ==> AccountedFor(s, e))
            && DistinctIds(s.server.log)
            && m <= |s.history.batches| && DR.Flatten(s.history.batches[..m]) <= s.history.accepted
            && Subsequence(s.server.log, DR.Flatten(s.history.batches[..m]))
            && Occupied(s.buffer) <= capacity
  {
    var s := Initial(capacity, batchSize, closed);
    InitialInv(capacity, batchSize, closed);
    m := RunInv(s, steps, 0);
    InvMeaning(Run(s, steps), m);
    CapacityKept(s, steps);
  }

  /** Once the current connection has delivered everything and nothing is queued, every accepted event is settled. */
  lemma DrainedSettled(s: System, m: nat, e: Event)
    requires Inv(s, m) && s.connected && s.channels[|s.channels| - 1] == [] && s.buffer.queued == [] && e in s.history.accepted
    ensures Settled(s.server, e)
  {
    hide ChannelInv;
    var last, h := s.channels[|s.channels| - 1], s.history;
    assert !Carries(last, m + 1);
    assert h.batches[..m] == h.batches;
  }

  lemma {:induction false} DrainedRunSettled(capacity: nat, batchSize: nat, closed: Option<int>, steps: seq<Step>)
    requires 0 < batchSize <= capacity && Legal(Initial(capacity, batchSize, closed), steps)
    ensures var s := Run(Initial(capacity, batchSize, closed), steps);
            s.connected && s.channels != [] && s.channels[|s.channels| - 1] == [] && s.buffer.queued == [] ==>
              forall e :: e in s.history.accepted ==> Settled(s.server, e)
  {
    hide Inv;
    InitialInv(capacity, batchSize, closed);
    var m := RunInv(Initial(capacity, batchSize, closed), steps, 0);
    var s := Run(Initial(capacity, batchSize, closed), steps);
    if s.connected && s.channels != [] && s.channels[|s.channels| - 1] == [] && s.buffer.queued == [] {
      forall e | e in s.history.accepted ensures Settled(s.server, e) {
        DrainedSettled(s, m, e);
      }
    }
  }

  lemma InitialInv(capacity: nat, batchSize: nat, closed: Option<int>)
    requires 0 < batchSize <= capacity
    ensures Inv(Initial(capacity, batchSize, closed), 0)
  {
    hide ChannelInv;
    hide Covers;
    var s := Initial(capacity, batchSize, closed);
    EmptyBufferInv(capacity, batchSize);
    hide DR.BufferInv;
    assert Arrived(s.history, 0) == [];
  }

  lemma EmptyBufferInv(capacity: nat, batchSize: nat)
    requires 0 < batchSize <= capacity
    ensures DR.BufferInv(Delivery.Init(capacity, batchSize), DR.History([], [], {}))
  {
    assert Counting.Sum(Delivery.Init(capacity, batchSize).pending, Len) == 0;
  }

  lemma {:induction false} CapacityKept(s: System, steps: seq<Step>)
    requires Legal(s, steps)
    ensures Run(s, steps).buffer.capacity == s.buffer.capacity
    decreases |steps|
  {
    if steps != [] {
      CapacityKept(Apply(s, steps[0]), steps[1..]);
    }
  }

  // ---------------------------------------------------------------- why identifiers and times must agree

  /** What the server sees: events arriving, and retention closing over a time and removing some rows before it. */
  datatype Act = Arrive(event: Event) | Retain(boundary: int, gone: set<nat>)

  function Serve(s: Server, acts: seq<Act>): Server {
    if acts == [] then s
    else
      var t := Serve(s, acts[..|acts| - 1]);
      match acts[|acts| - 1]
      case Arrive(e) => PersistOne(t, e)
      case Retain(boundary, gone) => Close(t, boundary, gone)
  }

  function Arrivals(acts: seq<Act>): seq<Event> {
    if acts == [] then []
    else
      var last := acts[|acts| - 1];
      Arrivals(acts[..|acts| - 1]) + (if last.Arrive? then [last.event] else [])
  }

  const EMPTY: Server := Server(map[], None, [])

  lemma {:induction false} ServeInv(acts: seq<Act>)
    requires Coherent(Arrivals(acts))
    ensures ServerInv(Serve(EMPTY, acts), Arrivals(acts))
    decreases |acts|
  {
    if acts != [] {
      hide ServerInv;
      var front, last := acts[..|acts| - 1], acts[|acts| - 1];
      var arrived := Arrivals(front);
      match last
      case Arrive(e) =>
        CoherentPrefix(arrived + [e], |arrived|);
        assert (arrived + [e])[..|arrived|] == arrived;
        ServeInv(front);
        ArriveOne(Serve(EMPTY, front), arrived, e);
      case Retain(boundary, gone) =>
        assert arrived + [] == arrived;
        ServeInv(front);
        CloseInv(Serve(EMPTY, front), arrived, boundary, gone);
    }
  }

  function Arriving(events: seq<Event>): seq<Act> {
    if events == [] then [] else Arriving(events[..|events| - 1]) + [Arrive(events[|events| - 1])]
  }

  lemma {:induction false} ServeArrive(acts: seq<Act>, e: Event)
    ensures Serve(EMPTY, acts + [Arrive(e)]) == PersistOne(Serve(EMPTY, acts), e)
    ensures Arrivals(acts + [Arrive(e)]) == Arrivals(acts) + [e]
  {
    assert (acts + [Arrive(e)])[..|acts|] == acts;
  }

  lemma {:induction false} ServeArriving(acts: seq<Act>, events: seq<Event>)
    ensures Serve(EMPTY, acts + Arriving(events)) == PersistAll(Serve(EMPTY, acts), events)
    ensures Arrivals(acts + Arriving(events)) == Arrivals(acts) + events
    decreases |events|
  {
    hide Serve;
    hide Arrivals;
    if events == [] {
      assert acts + [] == acts && Arrivals(acts) + events == Arrivals(acts);
    } else {
      var front, e := events[..|events| - 1], events[|events| - 1];
      ServeArriving(acts, front);
      ServeArrive(acts + Arriving(front), e);
      assert acts + Arriving(front) + [Arrive(e)] == acts + Arriving(events);
      assert Arrivals(acts) + front + [e] == Arrivals(acts) + events;
    }
  }

  /** Without retention the first event with an identifier is the one that is stored. */
  lemma {:induction false} FirstStored(events: seq<Event>, i: nat)
    requires i < |events| && First(events, i)
    ensures var s := PersistAll(EMPTY, events); events[i].id in s.stored && s.stored[events[i].id] == events[i] && events[i] in s.log
    decreases |events|
  {
    var front, e := events[..|events| - 1], events[|events| - 1];
    PersistKeeps(EMPTY, front);
    if i < |front| {
      assert front[i] == events[i] && First(front, i);
      FirstStored(front, i);
    } else {
      NotStored(front, e.id);
    }
  }

  lemma {:induction false} NotStored(events: seq<Event>, id: nat)
    requires forall k :: 0 <= k < |events| ==> events[k].id != id
    ensures id !in PersistAll(EMPTY, events).stored
    decreases |events|
  {
    if events != [] {
      NotStored(events[..|events| - 1], id);
    }
  }

  lemma {:induction false} ServeRetain(acts: seq<Act>, boundary: int, gone: set<nat>)
    ensures var more := acts + [Retain(boundary, gone)];
            Serve(EMPTY, more) == Close(Serve(EMPTY, acts), boundary, gone) && Arrivals(more) == Arrivals(acts)
  {
    var more := acts + [Retain(boundary, gone)];
    assert more[..|acts|] == acts && more[|acts|] == Retain(boundary, gone);
  }

  /** The events before `j`, then retention up to its time, then the rest. */
  function Undoing(events: seq<Event>, j: nat): seq<Act>
    requires j < |events|
  {
    Arriving(events[..j]) + [Retain(events[j].observedAt, {events[j].id})] + Arriving(events[j..])
  }

  lemma {:induction false} UndoingIs(events: seq<Event>, j: nat)
    requires j < |events|
    ensures Arrivals(Undoing(events, j)) == events
    ensures Serve(EMPTY, Undoing(events, j))
         == PersistAll(Close(PersistAll(EMPTY, events[..j]), events[j].observedAt, {events[j].id}), events[j..])
  {
    hide Serve;
    hide Arrivals;
    hide PersistAll;
    var before := Arriving(events[..j]);
    ServeArriving([], events[..j]);
    assert [] + before == before;
    NothingServed();
    ServeRetain(before, events[j].observedAt, {events[j].id});
    ServeArriving(before + [Retain(events[j].observedAt, {events[j].id})], events[j..]);
    assert events[..j] + events[j..] == events;
  }

  lemma NothingServed()
    ensures Serve(EMPTY, []) == EMPTY && Arrivals([]) == []
  {}

  /** Retention just before event `j` removes the earlier row of its identifier and lets it in. */
  lemma {:induction false} InsertedTwice(events: seq<Event>, i: nat, j: nat)
    requires i < j < |events| && events[i].id == events[j].id && First(events, i) && events[j].observedAt > events[i].observedAt
    ensures Arrivals(Undoing(events, j)) == events && !DistinctIds(Serve(EMPTY, Undoing(events, j)).log)
  {
    hide Serve;
    hide Arrivals;
    hide PersistAll;
    hide Undoing;
    var front, e := events[..j], events[j];
    UndoingIs(events, j);
    assert front[i] == events[i] && First(front, i);
    FirstStored(front, i);
    PersistKeeps(EMPTY, front);
    assert events[j..] == [e] + events[j + 1..];
    TwiceInLog(Close(PersistAll(EMPTY, front), e.observedAt, {e.id}), events[i], e, events[j + 1..]);
  }

  lemma {:induction false} TwiceInLog(t: Server, aged: Event, e: Event, rest: seq<Event>)
    requires aged in t.log && aged.id == e.id && !Settled(t, e)
    ensures !DistinctIds(PersistAll(t, [e] + rest).log)
  {
    var i :| 0 <= i < |t.log| && t.log[i] == aged;
    PersistOneFirst(t, e, rest);
    PersistKeeps(PersistOne(t, e), rest);
    var log := PersistAll(t, [e] + rest).log;
    assert log[i] == aged && log[|t.log|] == e;
  }

  lemma {:induction false} PersistOneFirst(t: Server, e: Event, rest: seq<Event>)
    ensures PersistAll(t, [e] + rest) == PersistAll(PersistOne(t, e), rest)
    decreases |rest|
  {
    var all := [e] + rest;
    if rest == [] {
      assert all == [e];
      PersistSingle(t, e);
    } else {
      assert all[..|all| - 1] == [e] + rest[..|rest| - 1];
      PersistOneFirst(t, e, rest[..|rest| - 1]);
    }
  }

  /**
   The condition on identifiers is exact: whatever retention does and whenever, no identifier is inserted twice, if and
   only if no event was observed later than the first one with its identifier.
   */
  lemma InsertedOnceExact(events: seq<Event>)
    ensures (forall acts :: Arrivals(acts) == events ==> DistinctIds(Serve(EMPTY, acts).log)) <==> Coherent(events)
  {
    if Coherent(events) {
      forall acts | Arrivals(acts) == events ensures DistinctIds(Serve(EMPTY, acts).log) {
        ServeInv(acts);
      }
    } else {
      var i, j :| 0 <= i < j < |events| && events[i].id == events[j].id && First(events, i) && events[j].observedAt > events[i].observedAt;
      InsertedTwice(events, i, j);
    }
  }

  /** For instance, of two such events retention can remove the first row and let the second in. */
  lemma SharedIdentifierInsertedTwice()
    ensures var aged, young := Event(1, 5, 0), Event(1, 20, 0);
            var s := PersistAll(Close(PersistAll(EMPTY, [aged]), 10, {1}), [young]);
            s.log == [aged, young] && !DistinctIds(s.log)
  {
    hide PersistAll;
    var aged, young := Event(1, 5, 0), Event(1, 20, 0);
    var a := PersistAll(EMPTY, [aged]);
    PersistSingle(EMPTY, aged);
    assert a.stored == map[1 := aged] && a.log == [aged];
    var b := Close(a, 10, {1});
    assert b.stored == map[] && b.closed == Some(10);
    PersistSingle(b, young);
    var c := PersistAll(b, [young]);
    assert c.log == [aged, young];
    assert c.log[0].id == c.log[1].id;
  }
}
