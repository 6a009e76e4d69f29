/** The process generation store as an object: each operation takes one step of the generation protocol. */
module ProcessGenerationStore {
  import opened Text
  import opened Generations

  /** What has been trimmed so far, with what trimming the rest adds. */
  ghost function Further(r: Trimmed, gone: set<Key>): Trimmed { r.(gone := r.gone + gone) }

  lemma {:induction false} TrimDone(entries: Entries, lru: Queue, capacity: nat)
    requires |entries| <= capacity || lru == []
    ensures Trim(entries, lru, capacity) == Trimmed(entries, lru, {})
  {}

  lemma TrimFurther(entries: Entries, lru: Queue, capacity: nat, gone: set<Key>)
    requires |entries| > capacity && lru != []
    ensures var live := Live(entries, lru[0]);
            Further(Trim(entries, lru, capacity), gone) ==
            Further(Trim(if live then entries - {lru[0].0} else entries, lru[1..], capacity),
                    if live then gone + {lru[0].0} else gone)
  {
    if Live(entries, lru[0]) {
      var r := Trim(entries - {lru[0].0}, lru[1..], capacity);
      assert r.gone + {lru[0].0} + gone == r.gone + (gone + {lru[0].0});
    }
  }

  class ProcessGenerationStore {
    const capacity: nat
    const epoch: nat
    var next: nat
    var entries: map<Key, Entry>
    var lru: seq<(Key, nat)>
    var evicted: set<Key>

    ghost function View(): Store
      reads this
    {
      Store(capacity, epoch, next, entries, lru, evicted)
    }

    constructor (capacity: nat, epoch: nat)
      ensures View() == Init(capacity, epoch)
    {
      this.capacity, this.epoch, next := capacity, epoch, 1;
      entries, lru, evicted := map[], [], {};
    }

    method EvictOldest() returns (ghost gone: set<Key>)
      modifies this`entries, this`lru, this`evicted
      ensures Trimmed(entries, lru, gone) == Trim(old(entries), old(lru), capacity)
      ensures evicted == old(evicted) + gone
    {
      hide Trim;
      gone := {};
      assert Further(Trim(entries, lru, capacity), {}) == Trim(entries, lru, capacity);
      while |entries| > capacity && lru != []
        invariant evicted == old(evicted) + gone
        invariant Further(Trim(entries, lru, capacity), gone) == Trim(old(entries), old(lru), capacity)
        decreases |lru|
      {
        TrimFurther(entries, lru, capacity, gone);
        var first := lru[0];
        lru := lru[1..];
        if Live(entries, first) {
          entries, evicted, gone := entries - {first.0}, evicted + {first.0}, gone + {first.0};
        }
      }
      TrimDone(entries, lru, capacity);
    }

    /** Which of too many evicted keys are forgotten is up to the set's iteration order. */
    method ForgetEvicted()
      modifies this`evicted
      ensures evicted <= old(evicted) && |evicted| == Min(|old(evicted)|, Max(capacity, 1))
    {
      while |evicted| > Max(capacity, 1)
        invariant evicted <= old(evicted) && |evicted| <= |old(evicted)|
        invariant |evicted| >= Min(|old(evicted)|, Max(capacity, 1))
      {
        var key :| key in evicted;
        evicted := evicted - {key};
      }
    }

    method Allocate(key: Key, at: nat, started: bool) returns (identity: Identity, ghost gone: set<Key>)
      modifies this
      ensures Allocates(old(View()), key, at, started, View(), gone)
      ensures identity == NewIdentity(old(View()), started)
    {
      hide Trim;
      identity := Identity(next, epoch, started);
      next := next + 1;
      entries := entries[key := Entry(identity, at, None)];
      evicted := evicted - {key};
      lru := lru + [(key, identity.generation)];
      gone := EvictOldest();
      ForgetEvicted();
    }

    method ObserveStart(key: Key, at: nat) returns (identity: Identity, ghost gone: set<Key>)
      modifies this
      ensures Step(old(View()), Event(Start(key, at), Some(identity), None, gone, Forgot(old(View()), key, gone, View())), View())
    {
      identity, gone := Allocate(key, at, true);
    }

    method EnsureGeneration(key: Key, at: nat) returns (identity: Identity, ghost gone: set<Key>)
      modifies this
      ensures Ensures(old(View()), key, at, View(), gone, identity)
      ensures Step(old(View()), Event(Ensure(key, at), Some(identity), None, gone, Forgot(old(View()), key, gone, View())), View())
    {
      if key in entries {
        return entries[key].identity, {};
      }
      identity, gone := Allocate(key, at, false);
    }

    method ObserveExec(key: Key, at: nat, exec: Exec) returns (identity: Identity, ghost gone: set<Key>)
      modifies this
      ensures Step(old(View()), Event(Execute(key, at, exec), Some(identity), None, gone, Forgot(old(View()), key, gone, View())), View())
    {
      identity, gone := EnsureGeneration(key, at);
      ghost var m := View();
      if key in entries {
        entries := entries[key := entries[key].(exec := Some(exec))];
      }
      assert View() == WithExec(m, key, exec);
    }

    /** Nothing in place of the correlation would be a failed `expect`; it does not arise. */
    method ConsumeExit(key: Key, at: nat) returns (identity: Option<Identity>, correlation: Option<Correlation>, ghost gone: set<Key>)
      modifies this
      ensures Step(old(View()), Event(Exit(key, at), identity, correlation, gone, Forgot(old(View()), key, gone, View())), View())
      ensures Inv(old(View())) ==> correlation.Some?
    {
      hide Inv;
      hide Allocates;
      ghost var before := View();
      if key in evicted && key !in entries {
        return None, Some(Unresolved(Evicted)), {};
      }
      var ensured, lost := EnsureGeneration(key, at);
      gone := lost;
      ghost var m := View();
      if key !in entries {
        identity, correlation := None, Some(Unresolved(BeforeObservation));
      } else if entries[key].observedAt > at {
        identity, correlation := None, Some(Unresolved(GenerationMismatch));
      } else {
        var entry := entries[key];
        entries := entries - {key};
        identity, correlation := Some(entry.identity), CorrelationOf(entry);
      }
      assert Ensures(before, key, at, m, gone, ensured) && Consumes(m, key, at, View(), identity, correlation);
      if Inv(before) {
        CorrelationNeverFails(before, Event(Exit(key, at), identity, correlation, gone, Forgot(before, key, gone, View())), View());
      }
    }
  }
}
