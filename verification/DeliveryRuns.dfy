/** Whole runs of the event buffer: nothing accepted is lost, reordered or batched twice. */
module DeliveryRuns {
  import opened Counting
  import opened Delivery

  /** Every event accepted so far, every batch taken so far (number `i + 1` at index `i`), every number acknowledged. */
  datatype History = History(accepted: seq<Event>, batches: seq<seq<Event>>, acked: set<nat>)

  datatype Tracked = Tracked(buffer: Buffer, history: History, tally: Tally)

  datatype Op = Pushed(event: Event) | Taken | Acked(sequence: nat)

  function Flatten(ss: seq<seq<Event>>): seq<Event> {
    if ss == [] then [] else Flatten(ss[..|ss| - 1]) + ss[|ss| - 1]
  }

  ghost function Step(s: Tracked, op: Op): Tracked {
    var b, h, t := s.buffer, s.history, s.tally;
    match op
    case Pushed(e) =>
      if Occupied(b) >= b.capacity then s.(tally := t.(dropped := t.dropped + 1))
      else Tracked(Push(b, e), h.(accepted := h.accepted + [e]), t)
    case Taken =>
      if b.queued == [] then s
      else Tracked(Take(b), h.(batches := h.batches + [NextBatch(b).events]), t.(sent := t.sent + |NextBatch(b).events|))
    case Acked(q) =>
      if q !in b.pending then s
      else Tracked(Acknowledge(b, q), h.(acked := h.acked + {q}), t.(acknowledged := t.acknowledged + |b.pending[q]|))
  }

  ghost function Run(s: Tracked, ops: seq<Op>): Tracked
    decreases |ops|
  {
    if ops == [] then s else Step(Run(s, ops[..|ops| - 1]), ops[|ops| - 1])
  }

  function Start(capacity: nat, batchSize: nat): Tracked {
    Tracked(Init(capacity, batchSize), History([], [], {}), Tally(0, 0, 0))
  }

  /** The accepted events, in order, are the batches in order followed by the queue; the rest is bookkeeping. */
  ghost predicate BufferInv(b: Buffer, h: History) {
    && b.Sized()
    && h.accepted == Flatten(h.batches) + b.queued
    && b.next == |h.batches| + 1
    && (forall q :: q in h.acked ==> 1 <= q < b.next)
    && (forall q :: q in b.pending <==> 1 <= q < b.next && q !in h.acked)
    && (forall q :: q in b.pending ==> b.pending[q] == h.batches[q - 1])
    && (forall i :: 0 <= i < |h.batches| ==> 0 < |h.batches[i]| <= b.batchSize)
    && Occupied(b) <= b.capacity
  }

  ghost predicate Accounted(s: Tracked) {
    && BufferInv(s.buffer, s.history)
    && s.tally.sent == |Flatten(s.history.batches)|
    && s.tally.sent == s.tally.acknowledged + Sum(s.buffer.pending, Len)
  }

  lemma PushInv(b: Buffer, h: History, e: Event)
    requires BufferInv(b, h) && Occupied(b) < b.capacity
    ensures BufferInv(Push(b, e), h.(accepted := h.accepted + [e]))
  {
    assert h.accepted + [e] == Flatten(h.batches) + (b.queued + [e]);
  }

  lemma TakeInv(b: Buffer, h: History)
    requires BufferInv(b, h) && b.queued != []
    ensures BufferInv(Take(b), h.(batches := h.batches + [NextBatch(b).events]))
    ensures Flatten(h.batches + [NextBatch(b).events]) == Flatten(h.batches) + NextBatch(b).events
    ensures Sum(Take(b).pending, Len) == Sum(b.pending, Len) + |NextBatch(b).events|
    ensures |NextBatch(b).events| == b.batchSize || Take(b).queued == []
  {
    hide Flatten;
    hide Sum;
    FlattenMore(h.batches, NextBatch(b).events);
    Moved(Flatten(h.batches), b.queued, TakeCount(b));
    TakeOccupied(b);
    var more := h.batches + [NextBatch(b).events];
    assert forall i :: 0 <= i < |h.batches| ==> more[i] == h.batches[i];
  }

  lemma TakeOccupied(b: Buffer)
    requires b.queued != [] && b.next !in b.pending
    ensures Sum(Take(b).pending, Len) == Sum(b.pending, Len) + |NextBatch(b).events|
  {
    SumUpdate(b.pending, Len, b.next, NextBatch(b).events);
  }

  lemma {:induction false} FlattenMore(batches: seq<seq<Event>>, last: seq<Event>)
    ensures Flatten(batches + [last]) == Flatten(batches) + last
  {
    assert (batches + [last])[..|batches|] == batches;
  }

  lemma Moved(front: seq<Event>, queued: seq<Event>, n: nat)
    requires n <= |queued|
    ensures front + queued == front + queued[..n] + queued[n..]
  {
    assert queued == queued[..n] + queued[n..];
  }

  lemma AckInv(b: Buffer, h: History, q: nat)
    requires BufferInv(b, h) && q in b.pending
    ensures BufferInv(Acknowledge(b, q), h.(acked := h.acked + {q}))
    ensures Sum(b.pending, Len) == Sum(Acknowledge(b, q).pending, Len) + |b.pending[q]|
  {
    SumRemove(b.pending, Len, q);
  }

  lemma StepAccounted(s: Tracked, op: Op)
    requires Accounted(s)
    ensures Accounted(Step(s, op))
  {
    hide BufferInv;
    var b, h := s.buffer, s.history;
    match op
    case Pushed(e) =>
      if Occupied(b) < b.capacity {
        PushInv(b, h, e);
      }
    case Taken =>
      if b.queued != [] {
        TakeInv(b, h);
      }
    case Acked(q) =>
      if q in b.pending {
        AckInv(b, h, q);
      }
  }

  /**
   In every run of the buffer: the accepted events are the batches in sequence order followed by the queue,
   batch numbers are 1, 2, 3 and never reused, pending are exactly the unacknowledged batches, occupancy stays
   within capacity, and what was sent is what was acknowledged plus what is pending.
   */
  lemma {:induction false} RunAccounted(capacity: nat, batchSize: nat, ops: seq<Op>)
    requires 0 < batchSize <= capacity
    ensures Accounted(Run(Start(capacity, batchSize), ops))
    decreases |ops|
  {
    if ops == [] {
      assert Sum(Start(capacity, batchSize).buffer.pending, Len) == 0;
    } else {
      RunAccounted(capacity, batchSize, ops[..|ops| - 1]);
      StepAccounted(Run(Start(capacity, batchSize), ops[..|ops| - 1]), ops[|ops| - 1]);
    }
  }

  /** Pushes are accepted in order, and every one that is not accepted is counted as dropped. */
  ghost function PushesOf(ops: seq<Op>): seq<Event> {
    if ops == [] then []
    else
      var rest := PushesOf(ops[..|ops| - 1]);
      match ops[|ops| - 1] case Pushed(e) => rest + [e] case _ => rest
  }

  lemma {:induction false} EveryPushCounted(s: Tracked, ops: seq<Op>)
    ensures var r := Run(s, ops);
            |r.history.accepted| + r.tally.dropped == |s.history.accepted| + s.tally.dropped + |PushesOf(ops)|
    decreases |ops|
  {
    if ops != [] {
      EveryPushCounted(s, ops[..|ops| - 1]);
    }
  }
}
