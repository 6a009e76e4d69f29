/** The resource sampler as an object, with its loops. */
module ResourceSampler {
  import opened Text
  import opened Resource
  import opened ResourceRuns

  /** The next key in map order. */
  lemma {:induction false} LeastKey(keys: set<Key>) returns (k: Key)
    requires keys != {}
    ensures k in keys && forall l :: l in keys ==> Precedes(k, l)
    decreases |keys|
  {
    k :| k in keys;
    var rest := keys - {k};
    assert forall l :: l in keys ==> l == k || l in rest;
    if rest != {} {
      var least := LeastKey(rest);
      if !Precedes(k, least) {
        k := least;
      }
    }
  }

  class ResourceSampler {
    const stateLimit: nat
    const aggregateLimit: nat
    const interval: nat
    var previous: map<Lifetime, Previous>
    var open: map<Key, Aggregate>

    ghost function View(): Sampler
      reads this
    {
      Sampler(stateLimit, aggregateLimit, interval, previous, open)
    }

    constructor (stateLimit: nat, aggregateLimit: nat, interval: nat)
      ensures View() == Init(stateLimit, aggregateLimit, interval)
    {
      this.stateLimit, this.aggregateLimit, this.interval := stateLimit, aggregateLimit, interval;
      previous, open := map[], map[];
    }

    /** The keys in order up to the first that is not before the boundary. */
    method KeysBefore(boundary: int) returns (keys: seq<Key>)
      ensures forall k :: k in keys <==> k in Taken(open, boundary)
      ensures forall i, j :: 0 <= i < j < |keys| ==> keys[i] != keys[j] && Precedes(keys[i], keys[j])
    {
      keys := [];
      var rest := open.Keys;
      while rest != {}
        invariant rest <= open.Keys
        invariant forall k :: k in keys <==> k in open && k !in rest
        invariant forall k :: k in keys ==> k.bucket < boundary
        invariant forall k, l :: k in keys && l in rest ==> Precedes(k, l)
        invariant forall i, j :: 0 <= i < j < |keys| ==> keys[i] != keys[j] && Precedes(keys[i], keys[j])
        decreases |rest|
      {
        ghost var least := LeastKey(rest);
        var k :| k in rest && forall l :: l in rest ==> Precedes(k, l);
        if k.bucket >= boundary {
          StopsHere(open, boundary, keys, rest, k);
          return;
        }
        keys, rest := keys + [k], rest - {k};
      }
    }

    method FlushBefore(boundary: int) returns (completed: seq<Report>)
      modifies this`open
      ensures Flushes(old(View()), boundary, completed, View())
    {
      var keys := KeysBefore(boundary);
      completed := [];
      assert forall j :: 0 <= j < |keys| ==> keys[j] in keys;
      for i := 0 to |keys|
        invariant forall j :: 0 <= j < |keys| ==> keys[j] in old(open)
        invariant |completed| == i && forall j :: 0 <= j < i ==> completed[j] == Report(keys[j], old(open)[keys[j]])
        invariant open == old(open) - set j | 0 <= j < i :: keys[j]
      {
        assert keys[i] in open;
        completed := completed + [Report(keys[i], open[keys[i]])];
        open := open - {keys[i]};
      }
      ListedAll(keys, completed, old(open), boundary);
    }

    method Record(a: Add)
      modifies this`open
      ensures View() == AddTo(old(View()), a)
    {
      if a.key !in open && |open| >= aggregateLimit {
        return;
      }
      var bucket := if a.key in open then open[a.key] else EMPTY;
      open := open[a.key := Absorb(bucket, a)];
    }

    method SampleCgroup(cgroup: Cgroup, now: int, ghost adds: seq<Add>, seen: set<Lifetime>)
      returns (ghost all: seq<Add>, nowSeen: set<Lifetime>)
      modifies this
      ensures Sampled(View(), all) == var r := SampleOne(old(View()), cgroup, now); Sampled(r.next, adds + r.adds)
      ensures nowSeen == seen + if cgroup.attribution.Some? then {cgroup.lifetime} else {}
    {
      hide Absorb;
      all, nowSeen := adds, seen;
      assert adds + [] == adds;
      if cgroup.attribution.None? {
        return;
      }
      nowSeen := seen + {cgroup.lifetime};
      if cgroup.lifetime !in previous {
        if |previous| < stateLimit {
          previous := previous[cgroup.lifetime := Previous(now, cgroup.snapshot)];
        }
        return;
      }
      var given := Contribution(previous[cgroup.lifetime], cgroup, now, interval);
      previous := previous[cgroup.lifetime := Previous(now, cgroup.snapshot)];
      if given.Some? {
        all := if Dropped(View(), given.value) then adds else adds + [given.value];
        Record(given.value);
      }
    }

    method Sample(now: int, listing: Listing) returns (completed: seq<Report>, ghost adds: seq<Add>)
      modifies this
      ensures Takes(old(View()), Event(now, listing, completed, adds), View())
    {
      hide SampleOne;
      hide Flushes;
      completed := FlushBefore(Bucket(now));
      adds := [];
      ghost var m := View();
      if listing.Failed? {
        assert Proceeds(m, now, listing, adds, View());
        return;
      }
      var seen, cgroups := {}, listing.cgroups;
      for i := 0 to |cgroups|
        invariant Sampled(View(), adds) == SampleAll(m, cgroups[..i], now)
        invariant seen == Seen(cgroups[..i])
      {
        SeenMore(cgroups[..i], cgroups[i]);
        assert cgroups[..i + 1] == cgroups[..i] + [cgroups[i]];
        adds, seen := SampleCgroup(cgroups[i], now, adds, seen);
      }
      assert cgroups[..|cgroups|] == cgroups;
      previous := map l | l in previous && l in seen :: previous[l];
      assert Proceeds(m, now, listing, adds, View());
    }
  }

  lemma SeenMore(cgroups: seq<Cgroup>, g: Cgroup)
    ensures Seen(cgroups + [g]) == Seen(cgroups) + if g.attribution.Some? then {g.lifetime} else {}
  {
    var all := cgroups + [g];
    assert forall c :: c in all <==> c in cgroups || c == g;
    forall l | l in Seen(cgroups) ensures l in Seen(all) {
      var c :| c in cgroups && c.attribution.Some? && c.lifetime == l;
      assert c in all;
    }
    if g.attribution.Some? {
      assert g in all;
    }
  }

  lemma StopsHere(open: map<Key, Aggregate>, boundary: int, keys: seq<Key>, rest: set<Key>, k: Key)
    requires k in rest && rest <= open.Keys && k.bucket >= boundary
    requires forall l :: l in rest ==> Precedes(k, l)
    requires forall l :: l in keys <==> l in open && l !in rest
    requires forall l :: l in keys ==> l.bucket < boundary
    requires forall j, l :: j in keys && l in rest ==> Precedes(j, l)
    ensures forall l :: l in keys <==> l in Taken(open, boundary)
  {
    forall l | l in keys ensures l in Taken(open, boundary) {
      forall j | j in open && Precedes(j, l) ensures j.bucket < boundary {
        if j in rest {
          assert Precedes(l, j);
          assert j.bucket == l.bucket;
        }
      }
    }
  }

  lemma ListedAll(keys: seq<Key>, completed: seq<Report>, open: map<Key, Aggregate>, boundary: int)
    requires forall k :: k in keys <==> k in Taken(open, boundary)
    requires forall i, j :: 0 <= i < j < |keys| ==> keys[i] != keys[j] && Precedes(keys[i], keys[j])
    requires |completed| == |keys| && forall j :: 0 <= j < |keys| ==> keys[j] in open && completed[j] == Report(keys[j], open[keys[j]])
    ensures Reports(completed, Taken(open, boundary), open)
    ensures (set j | 0 <= j < |keys| :: keys[j]) == Taken(open, boundary)
  {
    hide Taken;
    forall k | k in Taken(open, boundary) ensures exists r :: r in completed && r.key == k {
      var j :| 0 <= j < |keys| && keys[j] == k;
      assert completed[j] in completed;
    }
  }
}
