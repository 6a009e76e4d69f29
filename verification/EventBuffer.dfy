/** The event buffer and its counters as objects updated in place. */
module EventBuffer {
  import opened Text
  import opened Counting
  import D = Delivery

  class Counters {
    var sent: nat
    var acknowledged: nat
    var retried: nat
    var capacityDropped: nat
    var deliveryRetry: nat
  }

  class EventBuffer {
    const capacity: nat
    const batchSize: nat
    var nextSequence: nat
    var queued: seq<D.Event>
    var pending: map<nat, seq<D.Event>>

    ghost function View(): D.Buffer
      reads this
    {
      D.Buffer(capacity, batchSize, nextSequence, queued, pending)
    }

    constructor (capacity: nat, batchSize: nat)
      requires 0 < capacity && 0 < batchSize && batchSize <= capacity
      ensures View() == D.Init(capacity, batchSize)
    {
      this.capacity, this.batchSize := capacity, batchSize;
      nextSequence, queued, pending := 1, [], map[];
    }

    /** The events that wait for an acknowledgement. */
    method PendingEvents() returns (n: nat)
      ensures n == Sum(pending, D.Len)
    {
      n := 0;
      var rest := pending;
      while rest != map[]
        invariant n + Sum(rest, D.Len) == Sum(pending, D.Len)
        decreases |rest|
      {
        var q :| q in rest;
        SumRemove(rest, D.Len, q);
        assert (rest - {q}).Keys == rest.Keys - {q};
        n := n + |rest[q]|;
        rest := rest - {q};
      }
    }

    method Push(event: D.Event, counters: Counters) returns (ok: bool)
      modifies this`queued, counters`capacityDropped
      ensures ok <==> old(D.Occupied(View())) < capacity
      ensures View() == D.Push(old(View()), event)
      ensures counters.capacityDropped == old(counters.capacityDropped) + if ok then 0 else 1
    {
      var waiting := PendingEvents();
      var occupied := |queued| + waiting;
      if occupied >= capacity {
        counters.capacityDropped := counters.capacityDropped + 1;
        return false;
      }
      queued := queued + [event];
      return true;
    }

    method NextBatch(counters: Counters) returns (batch: Option<D.Batch>)
      modifies this`queued, this`nextSequence, this`pending, counters`sent
      ensures batch == if old(queued) == [] then None else Some(D.NextBatch(old(View())))
      ensures View() == D.Take(old(View()))
      ensures counters.sent == old(counters.sent) + if batch.Some? then |batch.value.events| else 0
    {
      if queued == [] {
        return None;
      }
      var count := if batchSize <= |queued| then batchSize else |queued|;
      var events := queued[..count];
      queued := queued[count..];
      batch := Some(D.Batch(nextSequence, events));
      nextSequence := nextSequence + 1;
      counters.sent := counters.sent + |events|;
      pending := pending[batch.value.sequence := events];
    }

    method Acknowledge(sequence: nat, counters: Counters) returns (known: bool)
      modifies this`pending, counters`acknowledged
      ensures known <==> sequence in old(pending)
      ensures View() == D.Acknowledge(old(View()), sequence)
      ensures counters.acknowledged == old(counters.acknowledged) + if known then |old(pending)[sequence]| else 0
    {
      if sequence !in pending {
        assert pending - {sequence} == pending;
        return false;
      }
      var events := pending[sequence];
      pending := pending - {sequence};
      counters.acknowledged := counters.acknowledged + |events|;
      return true;
    }

    /** Walks the ordered map of pending batches. */
    method ReplayPending(counters: Counters) returns (batches: seq<D.Batch>)
      modifies counters`retried, counters`deliveryRetry
      ensures D.Ascending(batches, pending)
      ensures counters.retried == old(counters.retried) + Sum(pending, D.Len)
      ensures counters.deliveryRetry == old(counters.deliveryRetry) + Sum(pending, D.Len)
    {
      hide D.Ascending;
      batches := [];
      D.AscendingNone(pending);
      var todo := pending.Keys;
      while todo != {}
        invariant todo <= pending.Keys
        invariant counters.retried == old(counters.retried) && counters.deliveryRetry == old(counters.deliveryRetry)
        invariant D.Ascending(batches, pending - todo)
        invariant forall i, q :: 0 <= i < |batches| && q in todo ==> batches[i].sequence < q
        decreases |todo|
      {
        var any :| any in todo;
        D.LeastKey(todo, any);
        var q :| q in todo && forall r :: r in todo ==> q <= r;
        ghost var was := batches;
        batches := batches + [D.Batch(q, pending[q])];
        D.Extends(was, q, pending, todo);
        todo := todo - {q};
      }
      assert pending - todo == pending;
      var n := PendingEvents();
      counters.retried := counters.retried + n;
      counters.deliveryRetry := counters.deliveryRetry + n;
    }
  }
}
