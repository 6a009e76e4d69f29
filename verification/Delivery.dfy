/** The agent's event buffer: queueing, batching, acknowledging and replaying. */
module Delivery {
  import opened Counting

  /** An event is its identifier, the time it was observed and the rest of it. */
  datatype Event = Event(id: nat, observedAt: int, body: nat)

  datatype Batch = Batch(sequence: nat, events: seq<Event>)

  datatype Buffer = Buffer(capacity: nat, batchSize: nat, next: nat, queued: seq<Event>, pending: map<nat, seq<Event>>) {
    predicate Sized() { 0 < batchSize <= capacity }
  }

  /** What the buffer has counted so far. */
  datatype Tally = Tally(sent: nat, acknowledged: nat, dropped: nat)

  function Len(events: seq<Event>): nat { |events| }

  ghost function Occupied(b: Buffer): nat { |b.queued| + Sum(b.pending, Len) }

  function Init(capacity: nat, batchSize: nat): Buffer { Buffer(capacity, batchSize, 1, [], map[]) }

  ghost function Push(b: Buffer, e: Event): Buffer {
    if Occupied(b) >= b.capacity then b else b.(queued := b.queued + [e])
  }

  function TakeCount(b: Buffer): nat { if b.batchSize <= |b.queued| then b.batchSize else |b.queued| }

  function NextBatch(b: Buffer): Batch { Batch(b.next, b.queued[..TakeCount(b)]) }

  function Take(b: Buffer): Buffer {
    if b.queued == [] then b
    else b.(queued := b.queued[TakeCount(b)..], next := b.next + 1, pending := b.pending[b.next := NextBatch(b).events])
  }

  function Acknowledge(b: Buffer, sequence: nat): Buffer { b.(pending := b.pending - {sequence}) }

  /** The batches of `pending`, in ascending order of their sequence numbers. */
  ghost predicate Ascending(r: seq<Batch>, pending: map<nat, seq<Event>>) {
    && (forall i, j :: 0 <= i < j < |r| ==> r[i].sequence < r[j].sequence)
    && (forall q :: q in pending <==> exists i :: 0 <= i < |r| && r[i].sequence == q)
    && (forall i :: 0 <= i < |r| ==> r[i].sequence in pending && r[i].events == pending[r[i].sequence])
  }

  lemma {:induction false} LeastKey(s: set<nat>, x: nat)
    requires x in s
    ensures exists q :: q in s && forall r :: r in s ==> q <= r
    decreases x
  {
    if y :| y in s && y < x {
      LeastKey(s, y);
    } else {
      assert forall r :: r in s ==> x <= r;
    }
  }

  lemma AscendingNone(pending: map<nat, seq<Event>>)
    ensures Ascending([], pending - pending.Keys)
  {}

  lemma Extends(r: seq<Batch>, q: nat, pending: map<nat, seq<Event>>, todo: set<nat>)
    requires q in todo && todo <= pending.Keys && Ascending(r, pending - todo)
    requires forall i :: 0 <= i < |r| ==> r[i].sequence < q
    ensures Ascending(r + [Batch(q, pending[q])], pending - (todo - {q}))
  {
    var s := r + [Batch(q, pending[q])];
    forall p | p in pending - (todo - {q}) ensures exists i :: 0 <= i < |s| && s[i].sequence == p {
      if p == q {
        assert s[|r|].sequence == p;
      } else {
        assert p in pending - todo;
        var i :| 0 <= i < |r| && r[i].sequence == p;
        assert s[i].sequence == p;
      }
    }
  }
}
