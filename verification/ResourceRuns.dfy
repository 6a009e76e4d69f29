/** The resource sampler over whole runs of non-decreasing sample times: every contribution is reported exactly once. */
module ResourceRuns {
  import opened Text
  import opened Resource
  import opened ResourceCoverage
  import opened ResourceMinute
  import Counting

  datatype Event = Event(now: int, listing: Listing, completed: seq<Report>, adds: seq<Add>)

  // ---------------------------------------------------------------- the invariant

  /** Baselines are no later than `t`, and no contribution of a lifetime ended after its baseline. */
  ghost predicate Baselines(previous: map<Lifetime, Previous>, adds: seq<Add>, t: int) {
    && (forall l :: l in previous ==> previous[l].at <= t && EndedBy(adds, l, previous[l].at))
    && (forall a :: a in adds ==> a.end <= t)
  }

  /** The open aggregates are those of the current minute, each holding all its contributions. */
  ghost predicate OpenRight(open: map<Key, Aggregate>, adds: seq<Add>, t: int) {
    forall k :: k in open ==> k.bucket == Bucket(t) && open[k] == Totals(adds, k) && Touched(adds, k)
  }

  /** The reported aggregates are those of earlier minutes, each reported once and holding all its contributions. */
  ghost predicate OutRight(out: seq<Report>, adds: seq<Add>, t: int) {
    && (forall r :: r in out ==> r.key.bucket < Bucket(t) && r.aggregate == Totals(adds, r.key) && Touched(adds, r.key))
    && (forall i, j :: 0 <= i < j < |out| ==> out[i].key != out[j].key)
  }

  ghost predicate Reported(out: seq<Report>, k: Key) { exists r :: r in out && r.key == k }

  /** No contribution is lost: its aggregate is open or reported. */
  ghost predicate Complete(adds: seq<Add>, open: map<Key, Aggregate>, out: seq<Report>) {
    forall a :: a in adds ==> a.key in open || Reported(out, a.key)
  }

  ghost predicate Good(s: Sampler, t: int, adds: seq<Add>, out: seq<Report>) {
    && Baselines(s.previous, adds, t) && Chained(adds, s.interval)
    && OpenRight(s.open, adds, t) && OutRight(out, adds, t) && Complete(adds, s.open, out)
  }

  // ---------------------------------------------------------------- the flush

  lemma FlushOut(open: map<Key, Aggregate>, adds: seq<Add>, out: seq<Report>, t: int, now: int, completed: seq<Report>)
    requires t <= now && OpenRight(open, adds, t) && OutRight(out, adds, t) && Reports(completed, Taken(open, Bucket(now)), open)
    ensures OutRight(out + completed, adds, now)
  {
    hide Totals;
    hide Touched;
    BucketMonotone(t, now);
    hide Bucket;
    FlushExact(open, Bucket(now));
    hide Taken;
    var all := out + completed;
    forall i, j | 0 <= i < j < |all| ensures all[i].key != all[j].key {
      if i < |out| <= j {
        assert all[i] in out && all[j] in completed;
      }
    }
  }

  lemma FlushComplete(open: map<Key, Aggregate>, adds: seq<Add>, out: seq<Report>, taken: set<Key>, completed: seq<Report>)
    requires Complete(adds, open, out) && Reports(completed, taken, open)
    ensures Complete(adds, open - taken, out + completed)
  {
    var all := out + completed;
    forall a | a in adds ensures a.key in open - taken || Reported(all, a.key) {
      if a.key in open {
        if a.key in taken {
          var r :| r in completed && r.key == a.key;
          assert r in all;
        }
      } else {
        var r :| r in out && r.key == a.key;
        assert r in all;
      }
    }
  }

  /** The flush leaves only the current minute's aggregates, and takes all that a full filter would take. */
  lemma FlushGood(s: Sampler, t: int, adds: seq<Add>, out: seq<Report>, now: int, completed: seq<Report>, m: Sampler)
    requires Good(s, t, adds, out) && t <= now && Flushes(s, Bucket(now), completed, m)
    ensures Good(m, now, adds, out + completed)
    ensures Taken(s.open, Bucket(now)) == Expired(s.open, Bucket(now))
  {
    UniformFlush(s.open, Bucket(now));
    FlushOut(s.open, adds, out, t, now, completed);
    FlushComplete(s.open, adds, out, Taken(s.open, Bucket(now)), completed);
    BucketMonotone(t, now);
    FlushBaselines(s.previous, adds, t, now);
    FlushOpen(s.open, adds, t, now);
  }

  lemma FlushBaselines(previous: map<Lifetime, Previous>, adds: seq<Add>, t: int, now: int)
    requires Baselines(previous, adds, t) && t <= now
    ensures Baselines(previous, adds, now)
  {}

  lemma FlushOpen(open: map<Key, Aggregate>, adds: seq<Add>, t: int, now: int)
    requires OpenRight(open, adds, t) && t <= now
    ensures OpenRight(open - Expired(open, Bucket(now)), adds, now)
  {
    BucketMonotone(t, now);
  }

  // ---------------------------------------------------------------- one cgroup

  lemma {:induction false} TotalsUntouched(adds: seq<Add>, key: Key)
    requires !Touched(adds, key)
    ensures Totals(adds, key) == EMPTY
  {
    if adds != [] {
      var front := adds[..|adds| - 1];
      assert forall a :: a in front ==> a in adds;
      assert adds[|adds| - 1] in adds;
      TotalsUntouched(front, key);
    }
  }

  lemma ChainedMore(adds: seq<Add>, a: Add, interval: nat)
    requires Chained(adds, interval) && Honest(a, interval) && EndedBy(adds, a.lifetime, a.start)
    ensures Chained(adds + [a], interval)
  {
    var all := adds + [a];
    forall i, j | 0 <= i < j < |all| && all[i].lifetime == all[j].lifetime ensures all[i].end <= all[j].start {
      if j == |adds| {
        assert all[i] in adds;
      }
    }
  }

  lemma BaselinesMoved(previous: map<Lifetime, Previous>, adds: seq<Add>, l: Lifetime, snapshot: Snapshot, now: int)
    requires Baselines(previous, adds, now)
    ensures Baselines(previous[l := Previous(now, snapshot)], adds, now)
  {}

  lemma BaselinesMore(previous: map<Lifetime, Previous>, adds: seq<Add>, a: Add, now: int)
    requires Baselines(previous, adds, now) && a.lifetime in previous && previous[a.lifetime].at == now && a.end == now
    ensures Baselines(previous, adds + [a], now)
  {}

  lemma TouchedMore(adds: seq<Add>, a: Add, key: Key)
    ensures Touched(adds + [a], key) <==> Touched(adds, key) || a.key == key
  {
    var all := adds + [a];
    assert all[|adds|] == a;
    if Touched(adds, key) {
      var c :| c in adds && c.key == key;
      assert c in all;
    }
  }

  lemma OutMore(out: seq<Report>, adds: seq<Add>, a: Add, now: int)
    requires OutRight(out, adds, now) && a.key.bucket == Bucket(now)
    ensures OutRight(out, adds + [a], now)
  {
    hide Totals;
    hide Touched;
    hide Bucket;
    forall r | r in out ensures r.aggregate == Totals(adds + [a], r.key) && Touched(adds + [a], r.key) {
      TotalsMore(adds, a, r.key);
      TouchedMore(adds, a, r.key);
    }
  }

  lemma OpenMore(s: Sampler, adds: seq<Add>, a: Add, out: seq<Report>, now: int)
    requires OpenRight(s.open, adds, now) && OutRight(out, adds, now) && Complete(adds, s.open, out)
    requires a.key.bucket == Bucket(now) && !Dropped(s, a)
    ensures OpenRight(AddTo(s, a).open, adds + [a], now)
  {
    hide Totals;
    hide Touched;
    hide Bucket;
    hide Absorb;
    var open := AddTo(s, a).open;
    if a.key !in s.open {
      NotYet(s.open, adds, a.key, out, now);
      TotalsUntouched(adds, a.key);
    }
    forall k | k in open ensures k.bucket == Bucket(now) && open[k] == Totals(adds + [a], k) && Touched(adds + [a], k) {
      TotalsMore(adds, a, k);
      TouchedMore(adds, a, k);
    }
  }

  /** An aggregate of the current minute that is not open has had no contribution. */
  lemma NotYet(open: map<Key, Aggregate>, adds: seq<Add>, key: Key, out: seq<Report>, now: int)
    requires OutRight(out, adds, now) && Complete(adds, open, out) && key.bucket == Bucket(now) && key !in open
    ensures !Touched(adds, key)
  {
    hide Totals;
    hide Bucket;
    forall a | a in adds ensures a.key != key {
      if a.key !in open {
        var r :| r in out && r.key == a.key;
      }
    }
  }

  lemma CompleteMore(s: Sampler, adds: seq<Add>, a: Add, out: seq<Report>)
    requires Complete(adds, s.open, out) && !Dropped(s, a)
    ensures Complete(adds + [a], AddTo(s, a).open, out)
  {
    hide Absorb;
  }

  lemma AddGood(s: Sampler, now: int, adds: seq<Add>, out: seq<Report>, a: Add)
    requires Good(s, now, adds, out) && !Dropped(s, a)
    requires a.lifetime in s.previous && s.previous[a.lifetime].at == now && a.end == now
    requires Honest(a, s.interval) && EndedBy(adds, a.lifetime, a.start)
    ensures Good(AddTo(s, a), now, adds + [a], out)
  {
    hide Baselines;
    hide OpenRight;
    hide OutRight;
    hide Complete;
    hide Chained;
    hide EndedBy;
    BaselinesMore(s.previous, adds, a, now);
    ChainedMore(adds, a, s.interval);
    OpenMore(s, adds, a, out, now);
    OutMore(out, adds, a, now);
    CompleteMore(s, adds, a, out);
  }

  lemma ContributionHonest(before: Previous, cgroup: Cgroup, now: int, interval: nat)
    requires cgroup.attribution.Some? && before.at <= now && Contribution(before, cgroup, now, interval).Some?
    ensures var a := Contribution(before, cgroup, now, interval).value;
            Honest(a, interval) && a.lifetime == cgroup.lifetime && a.end == now && a.start == before.at
  {
    hide UsableCoverage;
    hide CounterReset;
    hide Delta;
  }

  lemma OneGood(s: Sampler, now: int, adds: seq<Add>, out: seq<Report>, cgroup: Cgroup)
    requires Good(s, now, adds, out)
    ensures Good(SampleOne(s, cgroup, now).next, now, adds + SampleOne(s, cgroup, now).adds, out)
  {
    hide OpenRight;
    hide OutRight;
    hide Complete;
    hide Chained;
    hide Contribution;
    hide Honest;
    hide Absorb;
    hide OpenAt;
    assert adds + [] == adds;
    var l := cgroup.lifetime;
    if cgroup.attribution.Some? {
      BaselinesMoved(s.previous, adds, l, cgroup.snapshot, now);
      if l in s.previous {
        var moved := s.(previous := s.previous[l := Previous(now, cgroup.snapshot)]);
        var given := Contribution(s.previous[l], cgroup, now, s.interval);
        if given.Some? && !Dropped(moved, given.value) {
          ContributionHonest(s.previous[l], cgroup, now, s.interval);
          AddGood(moved, now, adds, out, given.value);
        }
      }
    }
  }

  lemma {:induction false} AllGood(s: Sampler, now: int, adds: seq<Add>, out: seq<Report>, cgroups: seq<Cgroup>)
    requires Good(s, now, adds, out)
    ensures Good(SampleAll(s, cgroups, now).next, now, adds + SampleAll(s, cgroups, now).adds, out)
    decreases |cgroups|
  {
    hide Good;
    hide SampleOne;
    if cgroups == [] {
      assert adds + [] == adds;
    } else {
      var front := cgroups[..|cgroups| - 1];
      AllGood(s, now, adds, out, front);
      var r := SampleAll(s, front, now);
      var last := SampleOne(r.next, cgroups[|cgroups| - 1], now);
      OneGood(r.next, now, adds + r.adds, out, cgroups[|cgroups| - 1]);
      assert adds + r.adds + last.adds == adds + (r.adds + last.adds);
    }
  }

  lemma RetainGood(s: Sampler, now: int, adds: seq<Add>, out: seq<Report>, seen: set<Lifetime>)
    requires Good(s, now, adds, out)
    ensures Good(Retain(s, seen), now, adds, out)
  {
    hide OpenRight;
    hide OutRight;
    hide Complete;
    hide Chained;
    hide EndedBy;
  }

  lemma ProceedGood(m: Sampler, now: int, listing: Listing, adds: seq<Add>, t: Sampler, before: seq<Add>, out: seq<Report>)
    requires Good(m, now, before, out) && Proceeds(m, now, listing, adds, t)
    ensures Good(t, now, before + adds, out)
  {
    hide Good;
    hide SampleAll;
    hide Seen;
    hide Retain;
    match listing
    case Failed => assert before + [] == before;
    case Listed(cgroups) =>
      AllGood(m, now, before, out, cgroups);
      RetainGood(SampleAll(m, cgroups, now).next, now, before + adds, out, Seen(cgroups));
  }

  lemma SampleGood(s: Sampler, at: int, before: seq<Add>, out: seq<Report>, e: Event, t: Sampler)
    requires Good(s, at, before, out) && at <= e.now && Samples(s, e.now, e.listing, e.completed, e.adds, t)
    ensures Good(t, e.now, before + e.adds, out + e.completed)
    ensures Taken(s.open, Bucket(e.now)) == Expired(s.open, Bucket(e.now))
  {
    hide Good;
    hide Flushes;
    hide Proceeds;
    var m :| Flushes(s, Bucket(e.now), e.completed, m) && Proceeds(m, e.now, e.listing, e.adds, t);
    FlushGood(s, at, before, out, e.now, e.completed, m);
    ProceedGood(m, e.now, e.listing, e.adds, t, before, out + e.completed);
  }

  // ---------------------------------------------------------------- limits

  /** Both tables stay within their limits, whatever the clock does. */
  ghost predicate Bounded(s: Sampler) { |s.previous| <= s.stateLimit && |s.open| <= s.aggregateLimit }

  lemma UpdatedSize<K, V>(m: map<K, V>, k: K, v: V)
    ensures |m[k := v]| == if k in m then |m| else |m| + 1
  {
    var n := m[k := v];
    assert |n| == |n.Keys| && |m| == |m.Keys|;
    assert n.Keys == m.Keys + {k};
    if k in m {
      assert n.Keys == m.Keys;
    }
  }

  lemma SmallerSize<K, V>(m: map<K, V>, n: map<K, V>)
    requires n.Keys <= m.Keys
    ensures |n| <= |m|
  {
    assert |n| == |n.Keys| && |m| == |m.Keys|;
    Counting.SubsetSize(n.Keys, m.Keys);
  }

  lemma OneBounded(s: Sampler, cgroup: Cgroup, now: int)
    requires Bounded(s)
    ensures Bounded(SampleOne(s, cgroup, now).next)
  {
    hide Contribution;
    hide Absorb;
    var l, baseline := cgroup.lifetime, Previous(now, cgroup.snapshot);
    UpdatedSize(s.previous, l, baseline);
    if cgroup.attribution.Some? && l in s.previous {
      var given := Contribution(s.previous[l], cgroup, now, s.interval);
      var moved := s.(previous := s.previous[l := baseline]);
      if given.Some? {
        UpdatedSize(moved.open, given.value.key, Absorb(OpenAt(moved, given.value.key), given.value));
      }
    }
  }

  lemma {:induction false} AllBounded(s: Sampler, cgroups: seq<Cgroup>, now: int)
    requires Bounded(s)
    ensures Bounded(SampleAll(s, cgroups, now).next)
    decreases |cgroups|
  {
    hide SampleOne;
    if cgroups != [] {
      AllBounded(s, cgroups[..|cgroups| - 1], now);
      OneBounded(SampleAll(s, cgroups[..|cgroups| - 1], now).next, cgroups[|cgroups| - 1], now);
    }
  }

  lemma SampleBounded(s: Sampler, e: Event, t: Sampler)
    requires Bounded(s) && Samples(s, e.now, e.listing, e.completed, e.adds, t)
    ensures Bounded(t)
  {
    hide Taken;
    hide Reports;
    hide SampleAll;
    var m :| Flushes(s, Bucket(e.now), e.completed, m) && Proceeds(m, e.now, e.listing, e.adds, t);
    SmallerSize(s.open, m.open);
    match e.listing
    case Failed =>
    case Listed(cgroups) =>
      AllBounded(m, cgroups, e.now);
      SmallerSize(SampleAll(m, cgroups, e.now).next.previous, t.previous);
  }

  // ---------------------------------------------------------------- runs

  ghost function AllAdds(events: seq<Event>): seq<Add> {
    if events == [] then [] else AllAdds(events[..|events| - 1]) + events[|events| - 1].adds
  }

  ghost function AllOut(events: seq<Event>): seq<Report> {
    if events == [] then [] else AllOut(events[..|events| - 1]) + events[|events| - 1].completed
  }

  ghost predicate Takes(s: Sampler, e: Event, t: Sampler) { Samples(s, e.now, e.listing, e.completed, e.adds, t) }

  /** A run from a new sampler; `states` are the states between its samples. */
  ghost predicate IsRun(states: seq<Sampler>, events: seq<Event>, stateLimit: nat, aggregateLimit: nat, interval: nat) {
    && |states| == |events| + 1 && states[0] == Init(stateLimit, aggregateLimit, interval)
    && forall i :: 0 <= i < |events| ==> Takes(states[i], events[i], states[i + 1])
  }

  /** Sample times never decrease. */
  ghost predicate Forward(events: seq<Event>) { forall i, j :: 0 <= i < j < |events| ==> events[i].now <= events[j].now }

  ghost function LastTime(events: seq<Event>): int { if events == [] then 0 else events[|events| - 1].now }

  lemma SampleInterval(s: Sampler, e: Event, t: Sampler)
    requires Takes(s, e, t)
    ensures t.interval == s.interval && t.stateLimit == s.stateLimit && t.aggregateLimit == s.aggregateLimit
  {
    hide Taken;
    hide Reports;
    var m :| Flushes(s, Bucket(e.now), e.completed, m) && Proceeds(m, e.now, e.listing, e.adds, t);
    if e.listing.Listed? {
      AllInterval(m, e.listing.cgroups, e.now);
    }
  }

  lemma {:induction false} AllInterval(s: Sampler, cgroups: seq<Cgroup>, now: int)
    ensures var t := SampleAll(s, cgroups, now).next;
            t.interval == s.interval && t.stateLimit == s.stateLimit && t.aggregateLimit == s.aggregateLimit
    decreases |cgroups|
  {
    if cgroups != [] {
      AllInterval(s, cgroups[..|cgroups| - 1], now);
    }
  }

  lemma {:induction false} RunGood(states: seq<Sampler>, events: seq<Event>, stateLimit: nat, aggregateLimit: nat, interval: nat)
    requires IsRun(states, events, stateLimit, aggregateLimit, interval)
    ensures Bounded(states[|events|]) && states[|events|].interval == interval
    ensures Forward(events) ==> Good(states[|events|], LastTime(events), AllAdds(events), AllOut(events))
    decreases |events|
  {
    hide Takes;
    if events == [] {
      InitGood(stateLimit, aggregateLimit, interval, 0);
    } else {
      hide Good;
      hide Bounded;
      var n := |events| - 1;
      var front, e := events[..n], events[n];
      assert Takes(states[n], e, states[n + 1]);
      RunGood(states[..n + 1], front, stateLimit, aggregateLimit, interval);
      SampleInterval(states[n], e, states[n + 1]);
      StepBounded(states[n], e, states[n + 1]);
      if Forward(events) {
        StepGood(states, events, stateLimit, aggregateLimit, interval);
      }
    }
  }

  lemma StepBounded(s: Sampler, e: Event, t: Sampler)
    requires Bounded(s) && Takes(s, e, t)
    ensures Bounded(t)
  {
    hide Samples;
    hide Bounded;
    SampleBounded(s, e, t);
  }

  lemma InitGood(stateLimit: nat, aggregateLimit: nat, interval: nat, t: int)
    ensures Good(Init(stateLimit, aggregateLimit, interval), t, [], []) && Bounded(Init(stateLimit, aggregateLimit, interval))
  {}

  lemma StepGood(states: seq<Sampler>, events: seq<Event>, stateLimit: nat, aggregateLimit: nat, interval: nat)
    requires IsRun(states, events, stateLimit, aggregateLimit, interval) && Forward(events) && events != []
    requires var front := events[..|events| - 1];
             Good(states[|front|], LastTime(front), AllAdds(front), AllOut(front))
    ensures Good(states[|events|], LastTime(events), AllAdds(events), AllOut(events))
    ensures var e := events[|events| - 1];
            Taken(states[|events| - 1].open, Bucket(e.now)) == Expired(states[|events| - 1].open, Bucket(e.now))
  {
    hide Good;
    hide Samples;
    var n := |events| - 1;
    var front, e := events[..n], events[n];
    assert Takes(states[n], e, states[n + 1]);
    if n == 0 {
      InitGood(stateLimit, aggregateLimit, interval, e.now);
      SampleGood(states[0], e.now, [], [], e, states[1]);
    } else {
      assert events[n - 1].now <= e.now;
      SampleGood(states[n], LastTime(front), AllAdds(front), AllOut(front), e, states[n + 1]);
    }
  }

  lemma RunPrefix(states: seq<Sampler>, events: seq<Event>, stateLimit: nat, aggregateLimit: nat, interval: nat, i: nat)
    requires IsRun(states, events, stateLimit, aggregateLimit, interval) && i <= |events|
    ensures IsRun(states[..i + 1], events[..i], stateLimit, aggregateLimit, interval)
    ensures Forward(events) ==> Forward(events[..i])
  {
    hide Takes;
    forall j | 0 <= j < i ensures Takes(states[..i + 1][j], events[..i][j], states[..i + 1][j + 1]) {
      assert Takes(states[j], events[j], states[j + 1]);
    }
  }

  /**
   Along every run of non-decreasing sample times the open aggregates before each sample share one bucket, so the
   flush that stops at the first late key takes exactly what a full filter would take.
   */
  lemma EveryFlushExact(states: seq<Sampler>, events: seq<Event>, stateLimit: nat, aggregateLimit: nat, interval: nat, i: nat)
    requires IsRun(states, events, stateLimit, aggregateLimit, interval) && Forward(events) && i < |events|
    ensures Uniform(states[i].open)
    ensures Taken(states[i].open, Bucket(events[i].now)) == Expired(states[i].open, Bucket(events[i].now))
    ensures forall k :: k in states[i + 1].open ==> k.bucket == Bucket(events[i].now)
  {
    hide Takes;
    RunPrefix(states, events, stateLimit, aggregateLimit, interval, i);
    RunGood(states[..i + 1], events[..i], stateLimit, aggregateLimit, interval);
    UniformFlush(states[i].open, Bucket(events[i].now));
    RunPrefix(states, events, stateLimit, aggregateLimit, interval, i + 1);
    RunGood(states[..i + 2], events[..i + 1], stateLimit, aggregateLimit, interval);
  }

  /**
   Exactly-once reporting: along such a run no aggregate is reported twice, what is reported or still open holds
   exactly the contributions made to it in the whole run, and every contribution is in one of them.
   */
  lemma {:induction false} ReportedOnce(states: seq<Sampler>, events: seq<Event>, stateLimit: nat, aggregateLimit: nat, interval: nat)
    requires IsRun(states, events, stateLimit, aggregateLimit, interval) && Forward(events)
    ensures var adds, out, open := AllAdds(events), AllOut(events), states[|events|].open;
            && (forall i, j :: 0 <= i < j < |out| ==> out[i].key != out[j].key)
            && (forall r :: r in out ==> r.key !in open && r.aggregate == Totals(adds, r.key))
            && (forall k :: k in open ==> open[k] == Totals(adds, k))
            && (forall a :: a in adds ==> a.key in open || Reported(out, a.key))
  {
    hide Takes;
    hide Totals;
    hide Bucket;
    RunGood(states, events, stateLimit, aggregateLimit, interval);
  }

  /** Along such a run a container lifetime covers less than a minute plus the sample interval in any bucket. */
  lemma {:induction false} RunCoverage(states: seq<Sampler>, events: seq<Event>, stateLimit: nat, aggregateLimit: nat, interval: nat, l: Lifetime, b: int)
    requires IsRun(states, events, stateLimit, aggregateLimit, interval) && Forward(events)
    ensures Spent(AllAdds(events), l, b) < MINUTE_USEC + interval * 1_000_000
  {
    RunGood(states, events, stateLimit, aggregateLimit, interval);
    MinuteBound(AllAdds(events), l, b, interval);
  }

  /**
   Along such a run a lifetime stays within the minute of a bucket if and only if the sample times of its contributions
   there satisfy the condition: without a step across the boundary always, and with one when what counts of it and of
   the time after it is at most a minute.
   */
  lemma {:induction false} RunMinuteExact(states: seq<Sampler>, events: seq<Event>, stateLimit: nat, aggregateLimit: nat, interval: nat, l: Lifetime, b: int)
    requires IsRun(states, events, stateLimit, aggregateLimit, interval) && Forward(events)
    ensures Spent(AllAdds(events), l, b) <= MINUTE_USEC <==> WithinMinute(Mine(AllAdds(events), l, b), b, interval)
  {
    hide Takes;
    RunGood(states, events, stateLimit, aggregateLimit, interval);
    hide Good;
    hide Chained;
    GoodChained(states[|events|], LastTime(events), AllAdds(events), AllOut(events));
    MinuteExact(AllAdds(events), l, b, interval);
  }

  lemma GoodChained(s: Sampler, t: int, adds: seq<Add>, out: seq<Report>)
    requires Good(s, t, adds, out)
    ensures Chained(adds, s.interval)
  {}

  /** A reported aggregate all of whose containers satisfy the condition passes the receiver's coverage check. */
  lemma {:induction false} FittingReportAccepted(states: seq<Sampler>, events: seq<Event>, stateLimit: nat, aggregateLimit: nat, interval: nat, r: Report)
    requires IsRun(states, events, stateLimit, aggregateLimit, interval) && Forward(events) && r in AllOut(events)
    requires forall l :: WithinMinute(Mine(AllAdds(events), l, r.key.bucket), r.key.bucket, interval)
    ensures CoverageAccepted(r.aggregate)
  {
    hide Takes;
    hide Totals;
    hide Bucket;
    hide Chained;
    hide Touched;
    hide WithinMinute;
    var adds := AllAdds(events);
    forall l ensures Spent(adds, l, r.key.bucket) <= MINUTE_USEC {
      RunMinuteExact(states, events, stateLimit, aggregateLimit, interval, l, r.key.bucket);
    }
    RunGood(states, events, stateLimit, aggregateLimit, interval);
    ReportBounded(adds, r, MINUTE_USEC);
  }

  /** So a reported aggregate covers less than that much for each of its containers. */
  lemma {:induction false} AggregateCoverage(states: seq<Sampler>, events: seq<Event>, stateLimit: nat, aggregateLimit: nat, interval: nat, r: Report)
    requires IsRun(states, events, stateLimit, aggregateLimit, interval) && Forward(events) && r in AllOut(events)
    ensures r.aggregate.samples > 0 && r.aggregate.contributors != {}
    ensures r.aggregate.covered < (MINUTE_USEC + interval * 1_000_000) * |r.aggregate.contributors|
  {
    hide Takes;
    hide Totals;
    hide Bucket;
    hide Chained;
    hide Touched;
    var adds := AllAdds(events);
    RunGood(states, events, stateLimit, aggregateLimit, interval);
    hide Spent;
    forall l ensures Spent(adds, l, r.key.bucket) <= MINUTE_USEC + interval * 1_000_000 - 1 {
      MinuteBound(adds, l, r.key.bucket, interval);
    }
    ReportBounded(adds, r, MINUTE_USEC + interval * 1_000_000 - 1);
    StrictlyLess(r.aggregate.covered, MINUTE_USEC + interval * 1_000_000 - 1, |r.aggregate.contributors|);
  }

  lemma StrictlyLess(x: nat, most: nat, n: nat)
    requires x <= most * n && n > 0
    ensures x < (most + 1) * n
  {
    Distribute(most, 1, n);
  }

  lemma {:induction false} ReportBounded(adds: seq<Add>, r: Report, most: nat)
    requires r.aggregate == Totals(adds, r.key) && Touched(adds, r.key)
    requires forall l :: Spent(adds, l, r.key.bucket) <= most
    ensures r.aggregate.covered <= most * |r.aggregate.contributors|
    ensures r.aggregate.samples > 0 && r.aggregate.contributors != {} && |r.aggregate.contributors| > 0
  {
    hide Totals;
    hide Touched;
    hide Contributors;
    ReportMeaning(adds, r);
    SpentByBounded(adds, r.key, Contributors(adds, r.key), most);
  }

  lemma {:induction false} ReportMeaning(adds: seq<Add>, r: Report)
    requires r.aggregate == Totals(adds, r.key) && Touched(adds, r.key)
    ensures r.aggregate.contributors == Contributors(adds, r.key) && Contributors(adds, r.key) != {}
    ensures r.aggregate.covered == SpentBy(adds, r.key, Contributors(adds, r.key)) && r.aggregate.samples > 0
    ensures |Contributors(adds, r.key)| > 0
  {
    TotalsMeaning(adds, r.key);
    var a :| a in adds && a.key == r.key;
    assert a.lifetime in Contributors(adds, r.key);
  }

  // ---------------------------------------------------------------- exactly periodic runs

  /** Every baseline and every contribution lies at one phase of the sample interval. */
  ghost predicate InPhase(s: Sampler, adds: seq<Add>, step: nat, phase: int)
    requires step > 0
  {
    && (forall l :: l in s.previous ==> s.previous[l].at % step == phase)
    && (forall a :: a in adds ==> a.start % step == phase && a.end % step == phase)
  }

  lemma OneInPhase(s: Sampler, adds: seq<Add>, cgroup: Cgroup, now: int, step: nat, phase: int)
    requires step > 0 && InPhase(s, adds, step, phase) && now % step == phase
    ensures InPhase(SampleOne(s, cgroup, now).next, adds + SampleOne(s, cgroup, now).adds, step, phase)
  {
    hide UsableCoverage;
    hide CounterReset;
    hide Delta;
    hide Absorb;
  }

  lemma {:induction false} AllInPhase(s: Sampler, adds: seq<Add>, cgroups: seq<Cgroup>, now: int, step: nat, phase: int)
    requires step > 0 && InPhase(s, adds, step, phase) && now % step == phase
    ensures InPhase(SampleAll(s, cgroups, now).next, adds + SampleAll(s, cgroups, now).adds, step, phase)
    decreases |cgroups|
  {
    hide InPhase;
    hide SampleOne;
    if cgroups == [] {
      assert adds + [] == adds;
    } else {
      var front := cgroups[..|cgroups| - 1];
      AllInPhase(s, adds, front, now, step, phase);
      var r := SampleAll(s, front, now);
      var last := SampleOne(r.next, cgroups[|cgroups| - 1], now);
      OneInPhase(r.next, adds + r.adds, cgroups[|cgroups| - 1], now, step, phase);
      assert adds + r.adds + last.adds == adds + (r.adds + last.adds);
    }
  }

  lemma SampleInPhase(s: Sampler, adds: seq<Add>, e: Event, t: Sampler, step: nat, phase: int)
    requires step > 0 && InPhase(s, adds, step, phase) && e.now % step == phase && Takes(s, e, t)
    ensures InPhase(t, adds + e.adds, step, phase)
  {
    hide Taken;
    hide Reports;
    hide SampleAll;
    var m :| Flushes(s, Bucket(e.now), e.completed, m) && Proceeds(m, e.now, e.listing, e.adds, t);
    match e.listing
    case Failed =>
    case Listed(cgroups) => AllInPhase(m, adds, cgroups, e.now, step, phase);
  }

  lemma {:induction false} RunInPhase(states: seq<Sampler>, events: seq<Event>, stateLimit: nat, aggregateLimit: nat, interval: nat, step: nat, phase: int)
    requires IsRun(states, events, stateLimit, aggregateLimit, interval) && step > 0
    requires forall e :: e in events ==> e.now % step == phase
    ensures InPhase(states[|events|], AllAdds(events), step, phase)
    decreases |events|
  {
    hide Takes;
    if events != [] {
      hide InPhase;
      var n := |events| - 1;
      assert Takes(states[n], events[n], states[n + 1]);
      RunPrefix(states, events, stateLimit, aggregateLimit, interval, n);
      RunInPhase(states[..n + 1], events[..n], stateLimit, aggregateLimit, interval, step, phase);
      SampleInPhase(states[n], AllAdds(events[..n]), events[n], states[n + 1], step, phase);
    }
  }

  /** The coverage and emptiness checks a minute's aggregate meets at the receiver. */
  predicate CoverageAccepted(g: Aggregate) {
    g.covered <= MINUTE_USEC * |g.contributors| && g.samples != 0 && |g.contributors| != 0
  }

  /**
   When the sample times are whole intervals apart and the interval divides a minute, a lifetime covers at most a
   minute of any bucket, and every reported aggregate passes the receiver's coverage check.
   */
  lemma {:induction false} PeriodicRunFits(states: seq<Sampler>, events: seq<Event>, stateLimit: nat, aggregateLimit: nat, interval: nat, phase: int)
    requires IsRun(states, events, stateLimit, aggregateLimit, interval) && Forward(events)
    requires 0 < interval <= 60 && 60 % interval == 0 && (forall e :: e in events ==> e.now % (interval * SECOND) == phase)
    ensures forall l, b :: Spent(AllAdds(events), l, b) <= MINUTE_USEC
    ensures forall r :: r in AllOut(events) ==> CoverageAccepted(r.aggregate)
  {
    hide Takes;
    hide Bucket;
    hide Touched;
    hide Honest;
    var adds := AllAdds(events);
    RunGood(states, events, stateLimit, aggregateLimit, interval);
    RunInPhase(states, events, stateLimit, aggregateLimit, interval, interval * SECOND, phase);
    hide Spent;
    hide Totals;
    forall l, b ensures Spent(adds, l, b) <= MINUTE_USEC {
      PeriodicMinuteBound(adds, l, b, interval);
    }
    forall r | r in AllOut(events) ensures CoverageAccepted(r.aggregate) {
      ReportBounded(adds, r, MINUTE_USEC);
    }
  }
}
