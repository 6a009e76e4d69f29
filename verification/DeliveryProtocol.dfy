/**
 Agent, connections and server together. A connection is a queue of batches; a batch that is lost is one that
 is never delivered. Old connections may keep draining after the agent has reconnected. An acknowledgement is
 sent only after the commit and may arrive at any later time, more than once, or never.
 */
module DeliveryProtocol {
  import opened Text
  import opened Delivery
  import opened DeliveryRuns
  import opened Ingestion

  datatype System = System(
    buffer: Buffer, history: History, channels: seq<seq<Batch>>, connected: bool, server: Server, committed: set<nat>)

  datatype Step =
    | PushStep(event: Event)
    | ConnectStep(replay: seq<Batch>)
    | SendStep
    | DisconnectStep
    | DeliverStep(channel: nat)
    | AckStep(sequence: nat)
    | CloseStep(boundary: int, gone: set<nat>)

  function Initial(capacity: nat, batchSize: nat, closed: Option<int>): System {
    System(Init(capacity, batchSize), History([], [], {}), [], false, Server(map[], closed, []), {})
  }

  /** No earlier event has the identifier of event `i`. */
  ghost predicate First(events: seq<Event>, i: nat)
    requires i < |events|
  {
    forall k :: 0 <= k < i ==> events[k].id != events[i].id
  }

  /** No event was observed later than the first one with its identifier. */
  ghost predicate Coherent(events: seq<Event>) {
    forall i, j :: 0 <= i < j < |events| && events[i].id == events[j].id && First(events, i)
                   ==> events[j].observedAt <= events[i].observedAt
  }

  lemma {:induction false} FirstOf(events: seq<Event>, k: nat) returns (i: nat)
    requires k < |events|
    ensures i <= k && events[i].id == events[k].id && First(events, i)
    decreases k
  {
    if First(events, k) {
      i := k;
    } else {
      var j :| 0 <= j < k && events[j].id == events[k].id;
      i := FirstOf(events, j);
    }
  }

  ghost predicate Enabled(s: System, step: Step) {
    match step
    case PushStep(e) => Coherent(s.history.accepted + [e])
    case ConnectStep(replay) => !s.connected && Ascending(replay, s.buffer.pending)
    case SendStep => s.connected && s.channels != [] && s.buffer.queued != []
    case DisconnectStep => s.connected
    case DeliverStep(c) => c < |s.channels| && s.channels[c] != []
    case AckStep(q) => q in s.committed
    case CloseStep(_, _) => true
  }

  ghost function Apply(s: System, step: Step): System
    requires Enabled(s, step)
  {
    var b, h := s.buffer, s.history;
    match step
    case PushStep(e) =>
      if Occupied(b) >= b.capacity then s
      else s.(buffer := Push(b, e), history := h.(accepted := h.accepted + [e]))
    case ConnectStep(replay) => s.(connected := true, channels := s.channels + [replay])
    case SendStep =>
      var last := |s.channels| - 1;
      s.(buffer := Take(b), history := h.(batches := h.batches + [NextBatch(b).events]),
         channels := s.channels[last := s.channels[last] + [NextBatch(b)]])
    case DisconnectStep => s.(connected := false)
    case DeliverStep(c) =>
      var batch := s.channels[c][0];
      s.(channels := s.channels[c := s.channels[c][1..]],
         server := PersistAll(s.server, batch.events), committed := s.committed + {batch.sequence})
    case AckStep(q) =>
      if q !in b.pending then s
      else s.(buffer := Acknowledge(b, q), history := h.(acked := h.acked + {q}))
    case CloseStep(boundary, gone) => s.(server := Close(s.server, boundary, gone))
  }

  ghost predicate Legal(s: System, steps: seq<Step>)
    decreases |steps|
  {
    steps == [] || (Enabled(s, steps[0]) && Legal(Apply(s, steps[0]), steps[1..]))
  }

  ghost function Run(s: System, steps: seq<Step>): System
    requires Legal(s, steps)
    decreases |steps|
  {
    if steps == [] then s else Run(Apply(s, steps[0]), steps[1..])
  }

  // ---------------------------------------------------------------- the server's rows

  /** `a` is `b` with some elements left out. */
  ghost predicate Subsequence(a: seq<Event>, b: seq<Event>) {
    a == [] ||
    (b != [] && ((a[|a| - 1] == b[|b| - 1] && Subsequence(a[..|a| - 1], b[..|b| - 1])) || Subsequence(a, b[..|b| - 1])))
  }

  ghost predicate DistinctIds(events: seq<Event>) {
    forall i, j :: 0 <= i < j < |events| ==> events[i].id != events[j].id
  }

  /** What the server knows after the events `arrived` have arrived, possibly several times. */
  ghost predicate ServerInv(s: Server, arrived: seq<Event>) {
    && Subsequence(s.log, arrived) && DistinctIds(s.log)
    && (forall id :: id in s.stored ==> s.stored[id].id == id && s.stored[id] in s.log)
    && (forall e :: e in arrived ==> Settled(s, e))
    && Latest(s.log, arrived)
  }

  /** No arrived event is later than the inserted one with its identifier. */
  ghost predicate Latest(log: seq<Event>, arrived: seq<Event>) {
    forall e, f :: e in log && f in arrived && f.id == e.id ==> f.observedAt <= e.observedAt
  }

  lemma {:induction false} SubsequenceMembers(a: seq<Event>, b: seq<Event>)
    requires Subsequence(a, b)
    ensures forall e :: e in a ==> e in b
    decreases |b|
  {
    if a != [] {
      var init := b[..|b| - 1];
      if Subsequence(a, init) {
        SubsequenceMembers(a, init);
      } else {
        SubsequenceMembers(a[..|a| - 1], init);
        assert forall e :: e in a ==> e in a[..|a| - 1] || e == a[|a| - 1];
      }
      assert forall e :: e in init ==> e in b;
    }
  }

  lemma {:induction false} SubsequenceExtend(a: seq<Event>, b: seq<Event>, e: Event)
    requires Subsequence(a, b)
    ensures Subsequence(a, b + [e]) && Subsequence(a + [e], b + [e])
  {
    assert (b + [e])[..|b|] == b && (a + [e])[..|a|] == a;
  }

  /** A new event is no later than the inserted one with its identifier. */
  lemma NoLater(s: Server, arrived: seq<Event>, e: Event, g: Event)
    requires ServerInv(s, arrived) && Coherent(arrived + [e]) && g in s.log && g.id == e.id
    ensures e.observedAt <= g.observedAt
  {
    var all := arrived + [e];
    SubsequenceMembers(s.log, arrived);
    var k :| 0 <= k < |arrived| && arrived[k] == g;
    assert all[k] == g && all[|arrived|] == e;
    var i := FirstOf(all, k);
    assert all[i] == arrived[i] && arrived[i] in arrived;
  }

  lemma ArriveOne(s: Server, arrived: seq<Event>, e: Event)
    requires ServerInv(s, arrived) && Coherent(arrived + [e])
    ensures ServerInv(PersistOne(s, e), arrived + [e])
  {
    hide Coherent;
    SubsequenceExtend(s.log, arrived, e);
    SubsequenceMembers(s.log, arrived);
    forall g | g in s.log && g.id == e.id ensures e.observedAt <= g.observedAt {
      NoLater(s, arrived, e, g);
    }
    hide Subsequence;
    if !Settled(s, e) {
      forall g | g in s.log ensures g.id != e.id {
        assert Settled(s, g);
      }
      forall f | f in arrived && f.id == e.id ensures f.observedAt <= e.observedAt {
        assert Settled(s, f);
      }
    }
  }

  lemma {:induction false} ArriveAll(s: Server, arrived: seq<Event>, events: seq<Event>)
    requires ServerInv(s, arrived) && Coherent(arrived + events)
    ensures ServerInv(PersistAll(s, events), arrived + events)
    decreases |events|
  {
    if events == [] {
      assert arrived + events == arrived;
    } else {
      var init, e := events[..|events| - 1], events[|events| - 1];
      CoherentPrefix(arrived + events, |arrived| + |init|);
      assert (arrived + events)[..|arrived| + |init|] == arrived + init;
      ArriveAll(s, arrived, init);
      assert arrived + events == (arrived + init) + [e];
      ArriveOne(PersistAll(s, init), arrived + init, e);
    }
  }

  lemma CoherentPrefix(events: seq<Event>, n: nat)
    requires Coherent(events) && n <= |events|
    ensures Coherent(events[..n])
  {
    var front := events[..n];
    forall i, j | 0 <= i < j < n && front[i].id == front[j].id && First(front, i) ensures front[j].observedAt <= front[i].observedAt {
      assert events[i].id == events[j].id && First(events, i);
    }
  }

  lemma CloseInv(s: Server, arrived: seq<Event>, boundary: int, gone: set<nat>)
    requires ServerInv(s, arrived)
    ensures ServerInv(Close(s, boundary, gone), arrived)
  {
    hide Subsequence;
    var t := Close(s, boundary, gone);
    forall e | e in arrived ensures Settled(t, e) {
      assert Settled(s, e);
      if e.id in s.stored && e.id !in t.stored {
        var f := s.stored[e.id];
        assert f in s.log && f.id == e.id && f.observedAt < t.closed.value;
      }
    }
  }

  // ---------------------------------------------------------------- connections

  /** The batch is one the agent made. */
  ghost predicate Genuine(b: Batch, h: History) {
    1 <= b.sequence <= |h.batches| && b.events == h.batches[b.sequence - 1]
  }

  /** A connection carries genuine batches in ascending order, and beyond batch `m + 1` it skips none. */
  ghost predicate ChannelInv(channel: seq<Batch>, h: History, m: nat) {
    && (forall i :: 0 <= i < |channel| ==> Genuine(channel[i], h))
    && (forall i, j :: 0 <= i < j < |channel| ==> channel[i].sequence < channel[j].sequence)
    && (forall i :: 0 <= i < |channel| && channel[i].sequence > m + 1 ==>
          i > 0 && channel[i - 1].sequence == channel[i].sequence - 1)
  }

  ghost predicate Carries(channel: seq<Batch>, q: nat) {
    exists i :: 0 <= i < |channel| && channel[i].sequence == q
  }

  /** The connection still carries every batch after `m`. */
  ghost predicate Covers(channel: seq<Batch>, m: nat, next: nat) {
    forall q :: m < q < next ==> Carries(channel, q)
  }

  ghost function Arrived(h: History, m: nat): seq<Event>
    requires m <= |h.batches|
  {
    Flatten(h.batches[..m])
  }

  /** Exactly the batches 1 to `m` have been committed. */
  ghost predicate Inv(s: System, m: nat) {
    && BufferInv(s.buffer, s.history) && Coherent(s.history.accepted)
    && m <= |s.history.batches|
    && (forall q :: q in s.committed <==> 1 <= q <= m)
    && s.history.acked <= s.committed
    && (forall c :: 0 <= c < |s.channels| ==> ChannelInv(s.channels[c], s.history, m))
    && (s.connected ==> s.channels != [] && Covers(s.channels[|s.channels| - 1], m, s.buffer.next))
    && ServerInv(s.server, Arrived(s.history, m))
  }

  lemma {:induction false} FlattenPrefix(ss: seq<seq<Event>>, m: nat)
    requires m <= |ss|
    ensures Flatten(ss[..m]) <= Flatten(ss)
    decreases |ss|
  {
    if m < |ss| {
      FlattenPrefix(ss[..|ss| - 1], m);
      assert ss[..|ss| - 1][..m] == ss[..m];
    } else {
      assert ss[..m] == ss;
    }
  }

  lemma {:induction false} FlattenMember(ss: seq<seq<Event>>, i: nat)
    requires i < |ss|
    ensures forall e :: e in ss[i] ==> e in Flatten(ss)
    decreases |ss|
  {
    if i < |ss| - 1 {
      FlattenMember(ss[..|ss| - 1], i);
    }
  }

  lemma {:induction false} FlattenSource(ss: seq<seq<Event>>, e: Event)
    requires e in Flatten(ss)
    ensures exists i :: 0 <= i < |ss| && e in ss[i]
    decreases |ss|
  {
    var init := ss[..|ss| - 1];
    if e in ss[|ss| - 1] {
    } else {
      FlattenSource(init, e);
      var i :| 0 <= i < |init| && e in init[i];
      assert e in ss[i];
    }
  }

  lemma ChannelLater(channel: seq<Batch>, h: History, more: seq<Event>, m: nat)
    requires ChannelInv(channel, h, m)
    ensures ChannelInv(channel, h.(batches := h.batches + [more]), m)
  {
    forall i | 0 <= i < |channel| ensures Genuine(channel[i], h.(batches := h.batches + [more])) {
      assert Genuine(channel[i], h);
    }
  }

  lemma SendChannel(channel: seq<Batch>, h: History, batch: Batch, m: nat)
    requires ChannelInv(channel, h, m) && Covers(channel, m, |h.batches| + 1)
    requires batch.sequence == |h.batches| + 1 && m <= |h.batches|
    ensures var g := h.(batches := h.batches + [batch.events]);
            ChannelInv(channel + [batch], g, m) && Covers(channel + [batch], m, |g.batches| + 1)
  {
    var g := h.(batches := h.batches + [batch.events]);
    var longer := channel + [batch];
    ChannelLater(channel, h, batch.events, m);
    forall i | 0 <= i < |channel| ensures channel[i].sequence <= |h.batches| {
      assert Genuine(channel[i], h);
    }
    if batch.sequence > m + 1 {
      assert Carries(channel, |h.batches|);
      var i :| 0 <= i < |channel| && channel[i].sequence == |h.batches|;
      assert channel[i].sequence <= channel[|channel| - 1].sequence;
    }
    SendCovers(channel, batch, m);
  }

  lemma SendCovers(channel: seq<Batch>, batch: Batch, m: nat)
    requires Covers(channel, m, batch.sequence)
    ensures Covers(channel + [batch], m, batch.sequence + 1)
  {
    var longer := channel + [batch];
    forall q | m < q < batch.sequence + 1 ensures Carries(longer, q) {
      if q == batch.sequence {
        assert longer[|channel|].sequence == q;
      } else {
        assert Carries(channel, q);
        var i :| 0 <= i < |channel| && channel[i].sequence == q;
        assert longer[i].sequence == q;
      }
    }
  }

  lemma ReplayChannel(replay: seq<Batch>, b: Buffer, h: History, m: nat, committed: set<nat>)
    requires BufferInv(b, h) && Ascending(replay, b.pending) && h.acked <= committed
    requires forall q :: q in committed <==> 1 <= q <= m
    ensures ChannelInv(replay, h, m) && Covers(replay, m, b.next)
  {
    forall i | 0 <= i < |replay| ensures Genuine(replay[i], h) {
      assert replay[i].sequence in b.pending;
    }
    forall q | m < q < b.next ensures Carries(replay, q) {
      assert q in b.pending;
    }
    forall i | 0 <= i < |replay| && replay[i].sequence > m + 1
      ensures i > 0 && replay[i - 1].sequence == replay[i].sequence - 1
    {
      var q := replay[i].sequence - 1;
      assert replay[i].sequence in b.pending;
      assert q in b.pending;
      var j :| 0 <= j < |replay| && replay[j].sequence == q;
      assert j <= i - 1 && replay[j].sequence <= replay[i - 1].sequence < replay[i].sequence;
    }
  }

  /** Delivering the head of a connection commits the next batch or repeats an old one. */
  lemma DeliverChannel(channel: seq<Batch>, h: History, m: nat)
    requires ChannelInv(channel, h, m) && channel != []
    ensures channel[0].sequence <= m + 1
    ensures channel[0].sequence <= m ==> ChannelInv(channel[1..], h, m)
    ensures channel[0].sequence == m + 1 ==> ChannelInv(channel[1..], h, m + 1)
  {
    var rest := channel[1..];
    assert forall i :: 0 <= i < |rest| ==> rest[i] == channel[i + 1];
    forall i | 0 <= i < |rest| ensures Genuine(rest[i], h) {
      assert Genuine(channel[i + 1], h);
    }
  }

  lemma OtherChannel(channel: seq<Batch>, h: History, m: nat)
    requires ChannelInv(channel, h, m)
    ensures ChannelInv(channel, h, m + 1)
  {}

  // ---------------------------------------------------------------- steps

  lemma PushStepInv(s: System, e: Event, m: nat)
    requires Inv(s, m) && Enabled(s, PushStep(e))
    ensures Inv(Apply(s, PushStep(e)), m)
  {
    hide ServerInv;
    hide Occupied;
    if Occupied(s.buffer) < s.buffer.capacity {
      PushInv(s.buffer, s.history, e);
      var h := s.history.(accepted := s.history.accepted + [e]);
      forall c | 0 <= c < |s.channels| ensures ChannelInv(s.channels[c], h, m) {
        SameBatches(s.channels[c], s.history, h, m);
      }
    }
  }

  lemma SameBatches(channel: seq<Batch>, h: History, g: History, m: nat)
    requires ChannelInv(channel, h, m) && g.batches == h.batches
    ensures ChannelInv(channel, g, m)
  {
    forall i | 0 <= i < |channel| ensures Genuine(channel[i], g) {
      assert Genuine(channel[i], h);
    }
  }

  lemma ConnectStepInv(s: System, replay: seq<Batch>, m: nat)
    requires Inv(s, m) && Enabled(s, ConnectStep(replay))
    ensures Inv(Apply(s, ConnectStep(replay)), m)
  {
    hide ServerInv;
    hide ChannelInv;
    hide BufferInv;
    hide Covers;
    ReplayChannel(replay, s.buffer, s.history, m, s.committed);
  }

  lemma SendStepInv(s: System, m: nat)
    requires Inv(s, m) && Enabled(s, SendStep)
    ensures Inv(Apply(s, SendStep), m)
  {
    hide ServerInv;
    hide ChannelInv;
    hide Covers;
    var b, h := s.buffer, s.history;
    var batch, last := NextBatch(b), |s.channels| - 1;
    var g := h.(batches := h.batches + [batch.events]);
    TakeInv(b, h);
    SendChannel(s.channels[last], h, batch, m);
    forall c | 0 <= c < last ensures ChannelInv(s.channels[c], g, m) {
      ChannelLater(s.channels[c], h, batch.events, m);
    }
    assert g.batches[..m] == h.batches[..m];
  }

  lemma DeliverStepInv(s: System, c: nat, m: nat) returns (n: nat)
    requires Inv(s, m) && Enabled(s, DeliverStep(c))
    ensures Inv(Apply(s, DeliverStep(c)), n) && m <= n
    ensures n > m <==> s.channels[c][0].sequence == m + 1
  {
    var batch := s.channels[c][0];
    assert ChannelInv(s.channels[c], s.history, m);
    DeliverChannel(s.channels[c], s.history, m);
    assert Genuine(batch, s.history);
    if batch.sequence <= m {
      n := m;
      RepeatInv(s, c, m);
    } else {
      n := m + 1;
      CommitInv(s, c, m);
    }
  }

  lemma CoversRest(channel: seq<Batch>, m: nat, n: nat, next: nat)
    requires Covers(channel, m, next) && m <= n && channel != [] && channel[0].sequence <= n
    ensures Covers(channel[1..], n, next)
  {
    var rest := channel[1..];
    forall q | n < q < next ensures Carries(rest, q) {
      assert Carries(channel, q);
      var i :| 0 <= i < |channel| && channel[i].sequence == q;
      assert rest[i - 1].sequence == q;
    }
  }

  lemma CoversLater(channel: seq<Batch>, m: nat, n: nat, next: nat)
    requires Covers(channel, m, next) && m <= n
    ensures Covers(channel, n, next)
  {}

  /** A batch that was committed before: all of its events are settled, so the server does not change. */
  lemma RepeatInv(s: System, c: nat, m: nat)
    requires Inv(s, m) && Enabled(s, DeliverStep(c)) && s.channels[c][0].sequence <= m && Genuine(s.channels[c][0], s.history)
    requires ChannelInv(s.channels[c][1..], s.history, m)
    ensures Inv(Apply(s, DeliverStep(c)), m) && Apply(s, DeliverStep(c)).server == s.server
  {
    hide BufferInv;
    hide ChannelInv;
    hide Covers;
    hide Coherent;
    var batch := s.channels[c][0];
    FlattenMember(s.history.batches[..m], batch.sequence - 1);
    PersistSettled(s.server, batch.events);
    assert s.committed + {batch.sequence} == s.committed;
    if s.connected && c == |s.channels| - 1 {
      CoversRest(s.channels[c], m, m, s.buffer.next);
    }
  }

  lemma CommitInv(s: System, c: nat, m: nat)
    requires Inv(s, m) && Enabled(s, DeliverStep(c)) && s.channels[c][0].sequence == m + 1 && Genuine(s.channels[c][0], s.history)
    requires ChannelInv(s.channels[c][1..], s.history, m + 1)
    ensures Inv(Apply(s, DeliverStep(c)), m + 1)
  {
    hide ChannelInv;
    hide Covers;
    hide ServerInv;
    var batch, h := s.channels[c][0], s.history;
    CommitServer(s.server, s.buffer, h, m);
    forall d | 0 <= d < |s.channels| && d != c ensures ChannelInv(s.channels[d], h, m + 1) {
      OtherChannel(s.channels[d], h, m);
    }
    if s.connected {
      var last := s.channels[|s.channels| - 1];
      if c == |s.channels| - 1 {
        CoversRest(last, m, m + 1, s.buffer.next);
      } else {
        CoversLater(last, m, m + 1, s.buffer.next);
      }
    }
  }

  lemma {:induction false} CommitServer(s: Server, b: Buffer, h: History, m: nat)
    requires BufferInv(b, h) && Coherent(h.accepted) && m < |h.batches| && ServerInv(s, Arrived(h, m))
    ensures ServerInv(PersistAll(s, h.batches[m]), Arrived(h, m + 1))
  {
    var more := h.batches[..m + 1];
    assert more[..m] == h.batches[..m];
    assert Arrived(h, m + 1) == Arrived(h, m) + h.batches[m];
    FlattenPrefix(h.batches, m + 1);
    var n := |Arrived(h, m + 1)|;
    assert Arrived(h, m + 1) == h.accepted[..n];
    CoherentPrefix(h.accepted, n);
    ArriveAll(s, Arrived(h, m), h.batches[m]);
  }

  lemma AckStepInv(s: System, q: nat, m: nat)
    requires Inv(s, m) && Enabled(s, AckStep(q))
    ensures Inv(Apply(s, AckStep(q)), m)
  {
    hide BufferInv;
    hide ServerInv;
    hide ChannelInv;
    hide Covers;
    if q in s.buffer.pending {
      AckInv(s.buffer, s.history, q);
      var h := s.history.(acked := s.history.acked + {q});
      forall c | 0 <= c < |s.channels| ensures ChannelInv(s.channels[c], h, m) {
        SameBatches(s.channels[c], s.history, h, m);
      }
    }
  }

  lemma CloseStepInv(s: System, boundary: int, gone: set<nat>, m: nat)
    requires Inv(s, m)
    ensures Inv(Apply(s, CloseStep(boundary, gone)), m)
  {
    hide ServerInv;
    hide ChannelInv;
    CloseInv(s.server, Arrived(s.history, m), boundary, gone);
  }
}
