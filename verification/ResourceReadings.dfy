/** What a reported aggregate says of the readings it was made from, over whole runs and from their listings alone. */
module ResourceReadings {
  import opened Text
  import opened Resource
  import opened ResourceCoverage
  import opened ResourceRuns

  datatype Limits = Limits(states: nat, aggregates: nat, interval: nat)

  /** Two readings of a lifetime, one right after the other, that count for an aggregate. */
  datatype Pair = Pair(key: Key, lifetime: Lifetime, before: Previous, after: Previous)

  /** The last reading of every lifetime that is followed, and the pairs that counted so far. */
  datatype Book = Book(last: map<Lifetime, Previous>, pairs: seq<Pair>)

  // ---------------------------------------------------------------- the listings, read one after another

  function MinuteOf(t: int): int { t / MINUTE * MINUTE }

  predicate Shared(before: Previous, after: Previous, c: Counter) {
    c in before.snapshot.counters && c in after.snapshot.counters
  }

  /** No shared counter fell, and the readings lie in one minute or not much more than an interval apart. */
  predicate Countable(before: Previous, after: Previous, interval: nat) {
    var span := (after.at - before.at) / 1000;
    && (forall c :: Shared(before, after, c) ==> before.snapshot.counters[c] <= after.snapshot.counters[c])
    && before.at <= after.at && span <= 0x7fff_ffff_ffff_ffff
    && (MinuteOf(before.at) == MinuteOf(after.at) || span <= (interval + 2) * 1_000_000)
  }

  /** The microseconds a pair covers: its span, of which no more than an interval counts across minutes. */
  function Covering(before: Previous, after: Previous, interval: nat): int {
    var span := (after.at - before.at) / 1000;
    if MinuteOf(before.at) == MinuteOf(after.at) || span <= interval * 1_000_000 then span else interval * 1_000_000
  }

  /** How much a counter rose. */
  function Rise(p: Pair, c: Counter): int {
    if Shared(p.before, p.after, c) then p.after.snapshot.counters[c] as int - p.before.snapshot.counters[c] as int else 0
  }

  ghost function KeysIn(pairs: seq<Pair>, minute: int): set<Key> { set p | p in pairs && p.key.bucket == minute :: p.key }

  /** Whether a minute has an aggregate for the key or room for one more. */
  ghost predicate Room(pairs: seq<Pair>, key: Key, limit: nat) {
    key in KeysIn(pairs, key.bucket) || |KeysIn(pairs, key.bucket)| < limit
  }

  ghost function ReadOne(b: Book, cgroup: Cgroup, now: int, limits: Limits): Book {
    var l, reading := cgroup.lifetime, Previous(now, cgroup.snapshot);
    if cgroup.attribution.None? then b
    else if l !in b.last then if |b.last| < limits.states then b.(last := b.last[l := reading]) else b
    else
      var who := cgroup.attribution.value;
      var p := Pair(Key(who.route, MinuteOf(now), who.workload), l, b.last[l], reading);
      var counts := Countable(p.before, p.after, limits.interval) && Room(b.pairs, p.key, limits.aggregates);
      Book(b.last[l := reading], if counts then b.pairs + [p] else b.pairs)
  }

  ghost function ReadAll(b: Book, cgroups: seq<Cgroup>, now: int, limits: Limits): Book {
    if cgroups == [] then b
    else ReadOne(ReadAll(b, cgroups[..|cgroups| - 1], now, limits), cgroups[|cgroups| - 1], now, limits)
  }

  /** After a listing only the lifetimes it resolved are followed; a failed listing changes nothing. */
  ghost function Read(b: Book, now: int, listing: Listing, limits: Limits): Book {
    match listing
    case Failed => b
    case Listed(cgroups) =>
      var r := ReadAll(b, cgroups, now, limits);
      r.(last := map l | l in r.last && Resolves(cgroups, l) :: r.last[l])
  }

  ghost predicate Resolves(cgroups: seq<Cgroup>, l: Lifetime) {
    exists g :: g in cgroups && g.attribution.Some? && g.lifetime == l
  }

  ghost function ReadEvents(events: seq<Event>, limits: Limits): Book {
    if events == [] then Book(map[], [])
    else
      var e := events[|events| - 1];
      Read(ReadEvents(events[..|events| - 1], limits), e.now, e.listing, limits)
  }

  // ---------------------------------------------------------------- contributions are countable pairs

  ghost predicate Matches(a: Add, p: Pair, interval: nat) {
    && a.key == p.key && a.lifetime == p.lifetime && a.start == p.before.at && a.end == p.after.at
    && a.covered == Covering(p.before, p.after, interval) && a.unavailable == p.after.snapshot.unavailable
    && (forall c :: c in a.values <==> Shared(p.before, p.after, c)) && (forall c :: c in a.values ==> a.values[c] == Rise(p, c))
  }

  ghost predicate Matching(adds: seq<Add>, pairs: seq<Pair>, interval: nat) {
    |adds| == |pairs| && forall i :: 0 <= i < |adds| ==> Matches(adds[i], pairs[i], interval)
  }

  lemma SameMinute(t: int)
    ensures MinuteOf(t) == Bucket(t)
  {}

  lemma CoverageIs(start: int, end: int, interval: nat)
    requires start <= end
    ensures var span := (end - start) / 1000;
            UsableCoverage(start, end, interval)
            == if span > 0x7fff_ffff_ffff_ffff || (Bucket(start) != Bucket(end) && span > (interval + 2) * 1_000_000) then None
               else Some(if Bucket(start) == Bucket(end) || span <= interval * 1_000_000 then span else interval * 1_000_000)
  {
    hide Bucket;
  }

  /** A sample contributes exactly when it and the one before it are countable, and what it contributes is their difference. */
  lemma ContributionIs(before: Previous, cgroup: Cgroup, now: int, interval: nat)
    requires cgroup.attribution.Some? && before.at <= now
    ensures var given, after, who := Contribution(before, cgroup, now, interval), Previous(now, cgroup.snapshot), cgroup.attribution.value;
            && (given.Some? <==> Countable(before, after, interval))
            && (given.Some? ==> Matches(given.value, Pair(Key(who.route, MinuteOf(now), who.workload), cgroup.lifetime, before, after), interval))
  {
    SameMinute(before.at);
    SameMinute(now);
    CoverageIs(before.at, now, interval);
    hide MinuteOf;
    hide Bucket;
    hide UsableCoverage;
    var after := Previous(now, cgroup.snapshot);
    assert CounterReset(cgroup.snapshot, before.snapshot)
      <==> !(forall c :: Shared(before, after, c) ==> before.snapshot.counters[c] <= after.snapshot.counters[c]);
  }

  /** When the clock has stepped back, a sample contributes only if by less than a microsecond, and then no time. */
  lemma BackwardContribution(before: Previous, cgroup: Cgroup, now: int, interval: nat)
    requires cgroup.attribution.Some? && now < before.at
    ensures var given, after := Contribution(before, cgroup, now, interval), Previous(now, cgroup.snapshot);
            && (given.Some? <==>
                && before.at - now < 1000
                && forall c :: Shared(before, after, c) ==> before.snapshot.counters[c] <= after.snapshot.counters[c])
            && (given.Some? ==> given.value.covered == 0)
  {
    hide Bucket;
    var after := Previous(now, cgroup.snapshot);
    assert CounterReset(cgroup.snapshot, before.snapshot)
      <==> !(forall c :: Shared(before, after, c) ==> before.snapshot.counters[c] <= after.snapshot.counters[c]);
  }

  /** The open aggregates are those of the minute that have had a pair. */
  lemma OpenKeys(s: Sampler, now: int, adds: seq<Add>, out: seq<Report>, pairs: seq<Pair>)
    requires Good(s, now, adds, out) && Matching(adds, pairs, s.interval)
    ensures s.open.Keys == KeysIn(pairs, MinuteOf(now))
  {
    SameMinute(now);
    hide Totals;
    hide Bucket;
    hide MinuteOf;
    hide Chained;
    hide Baselines;
    forall k ensures k in s.open <==> k in KeysIn(pairs, MinuteOf(now)) {
      if k in s.open {
        var a :| a in adds && a.key == k;
        var i :| 0 <= i < |adds| && adds[i] == a;
        assert Matches(adds[i], pairs[i], s.interval) && pairs[i] in pairs;
      }
      if k in KeysIn(pairs, MinuteOf(now)) {
        var p :| p in pairs && p.key == k;
        var i :| 0 <= i < |pairs| && pairs[i] == p;
        assert Matches(adds[i], pairs[i], s.interval) && adds[i] in adds;
        assert forall r :: r in out ==> r.key.bucket < Bucket(now);
      }
    }
  }

  ghost predicate InBook(s: Sampler, adds: seq<Add>, b: Book, limits: Limits) {
    && s.previous == b.last && Matching(adds, b.pairs, s.interval)
    && limits == Limits(s.stateLimit, s.aggregateLimit, s.interval)
  }

  lemma MatchingMore(adds: seq<Add>, pairs: seq<Pair>, a: Add, p: Pair, interval: nat)
    requires Matching(adds, pairs, interval) && Matches(a, p, interval)
    ensures Matching(adds + [a], pairs + [p], interval)
  {}

  lemma OneInBook(s: Sampler, now: int, adds: seq<Add>, out: seq<Report>, b: Book, cgroup: Cgroup, limits: Limits)
    requires Good(s, now, adds, out) && InBook(s, adds, b, limits)
    ensures InBook(SampleOne(s, cgroup, now).next, adds + SampleOne(s, cgroup, now).adds, ReadOne(b, cgroup, now, limits), limits)
  {
    hide Good;
    hide Matching;
    hide Contribution;
    hide Countable;
    hide KeysIn;
    hide Absorb;
    assert adds + [] == adds;
    var l := cgroup.lifetime;
    if cgroup.attribution.Some? && l in s.previous {
      var who, after := cgroup.attribution.value, Previous(now, cgroup.snapshot);
      var p := Pair(Key(who.route, MinuteOf(now), who.workload), l, b.last[l], after);
      var given := Contribution(s.previous[l], cgroup, now, s.interval);
      BaselinePast(s, now, adds, out, l);
      ContributionIs(s.previous[l], cgroup, now, s.interval);
      OpenKeys(s, now, adds, out, b.pairs);
      assert |s.open| == |s.open.Keys|;
      if given.Some? {
        MatchingMore(adds, b.pairs, given.value, p, s.interval);
      }
    }
  }

  lemma BaselinePast(s: Sampler, now: int, adds: seq<Add>, out: seq<Report>, l: Lifetime)
    requires Good(s, now, adds, out) && l in s.previous
    ensures s.previous[l].at <= now
  {}

  lemma {:induction false} AllInBook(s: Sampler, now: int, adds: seq<Add>, out: seq<Report>, b: Book, cgroups: seq<Cgroup>, limits: Limits)
    requires Good(s, now, adds, out) && InBook(s, adds, b, limits)
    ensures InBook(SampleAll(s, cgroups, now).next, adds + SampleAll(s, cgroups, now).adds, ReadAll(b, cgroups, now, limits), limits)
    decreases |cgroups|
  {
    hide Good;
    hide InBook;
    hide SampleOne;
    hide ReadOne;
    if cgroups == [] {
      assert adds + [] == adds;
    } else {
      var front := cgroups[..|cgroups| - 1];
      AllInBook(s, now, adds, out, b, front, limits);
      AllGood(s, now, adds, out, front);
      var r := SampleAll(s, front, now);
      var last := SampleOne(r.next, cgroups[|cgroups| - 1], now);
      OneInBook(r.next, now, adds + r.adds, out, ReadAll(b, front, now, limits), cgroups[|cgroups| - 1], limits);
      assert adds + r.adds + last.adds == adds + (r.adds + last.adds);
    }
  }

  lemma SeenResolves(cgroups: seq<Cgroup>, l: Lifetime)
    ensures l in Seen(cgroups) <==> Resolves(cgroups, l)
  {}

  lemma SampleInBook(s: Sampler, at: int, before: seq<Add>, out: seq<Report>, e: Event, t: Sampler, b: Book, limits: Limits)
    requires Good(s, at, before, out) && at <= e.now && Takes(s, e, t) && InBook(s, before, b, limits)
    ensures InBook(t, before + e.adds, Read(b, e.now, e.listing, limits), limits)
  {
    hide Good;
    hide SampleAll;
    hide ReadAll;
    hide Taken;
    hide Reports;
    hide Seen;
    hide Resolves;
    hide Matching;
    var m :| Flushes(s, Bucket(e.now), e.completed, m) && Proceeds(m, e.now, e.listing, e.adds, t);
    FlushGood(s, at, before, out, e.now, e.completed, m);
    match e.listing
    case Failed => assert before + [] == before;
    case Listed(cgroups) =>
      AllInBook(m, e.now, before, out + e.completed, b, cgroups, limits);
      forall l ensures l in Seen(cgroups) <==> Resolves(cgroups, l) {
        SeenResolves(cgroups, l);
      }
  }

  lemma {:induction false} RunInBook(states: seq<Sampler>, events: seq<Event>, limits: Limits)
    requires IsRun(states, events, limits.states, limits.aggregates, limits.interval) && Forward(events)
    ensures InBook(states[|events|], AllAdds(events), ReadEvents(events, limits), limits)
    decreases |events|
  {
    hide Takes;
    hide Good;
    if events != [] {
      hide Matching;
      var n := |events| - 1;
      var front, e := events[..n], events[n];
      assert Takes(states[n], e, states[n + 1]);
      RunPrefix(states, events, limits.states, limits.aggregates, limits.interval, n);
      RunInBook(states[..n + 1], front, limits);
      RunGood(states[..n + 1], front, limits.states, limits.aggregates, limits.interval);
      if n == 0 {
        InitGood(limits.states, limits.aggregates, limits.interval, e.now);
        SampleInBook(states[n], e.now, [], [], e, states[n + 1], ReadEvents(front, limits), limits);
      } else {
        assert events[n - 1].now <= e.now;
        SampleInBook(states[n], LastTime(front), AllAdds(front), AllOut(front), e, states[n + 1], ReadEvents(front, limits), limits);
      }
    }
  }

  // ---------------------------------------------------------------- sums over pairs

  ghost function RiseSum(pairs: seq<Pair>, key: Key, c: Counter): int {
    if pairs == [] then 0
    else
      var p := pairs[|pairs| - 1];
      RiseSum(pairs[..|pairs| - 1], key, c) + (if p.key == key then Rise(p, c) else 0)
  }

  ghost function CoveringSum(pairs: seq<Pair>, key: Key, interval: nat): int {
    if pairs == [] then 0
    else
      var p := pairs[|pairs| - 1];
      CoveringSum(pairs[..|pairs| - 1], key, interval) + (if p.key == key then Covering(p.before, p.after, interval) else 0)
  }

  ghost function Count(pairs: seq<Pair>, key: Key): nat {
    if pairs == [] then 0 else Count(pairs[..|pairs| - 1], key) + (if pairs[|pairs| - 1].key == key then 1 else 0)
  }

  ghost predicate Rises(pairs: seq<Pair>, key: Key, c: Counter) {
    exists p :: p in pairs && p.key == key && Shared(p.before, p.after, c)
  }

  ghost predicate From(pairs: seq<Pair>, key: Key, l: Lifetime) { exists p :: p in pairs && p.key == key && p.lifetime == l }

  ghost predicate Misses(pairs: seq<Pair>, key: Key, u: nat) {
    exists p :: p in pairs && p.key == key && u in p.after.snapshot.unavailable
  }

  /** The aggregate is the sum of its pairs. */
  ghost predicate SumsUp(g: Aggregate, pairs: seq<Pair>, key: Key, interval: nat) {
    && (forall c :: ValueAt(g.values, c) == RiseSum(pairs, key, c))
    && (forall c :: c in g.values <==> Rises(pairs, key, c))
    && g.covered == CoveringSum(pairs, key, interval) && g.samples == Count(pairs, key)
    && (forall l :: l in g.contributors <==> From(pairs, key, l))
    && (forall u :: u in g.unavailable <==> Misses(pairs, key, u))
  }

  lemma WitnessMore(pairs: seq<Pair>, p: Pair, key: Key)
    ensures forall c :: Rises(pairs + [p], key, c) <==> Rises(pairs, key, c) || (p.key == key && Shared(p.before, p.after, c))
    ensures forall l :: From(pairs + [p], key, l) <==> From(pairs, key, l) || (p.key == key && p.lifetime == l)
    ensures forall u :: Misses(pairs + [p], key, u) <==> Misses(pairs, key, u) || (p.key == key && u in p.after.snapshot.unavailable)
  {
    var all := pairs + [p];
    assert forall q :: q in all <==> q in pairs || q == p;
    forall c ensures Rises(all, key, c) <==> Rises(pairs, key, c) || (p.key == key && Shared(p.before, p.after, c)) {
      if Rises(pairs, key, c) {
        var q :| q in pairs && q.key == key && Shared(q.before, q.after, c);
        assert q in all;
      }
    }
    forall l ensures From(all, key, l) <==> From(pairs, key, l) || (p.key == key && p.lifetime == l) {
      if From(pairs, key, l) {
        var q :| q in pairs && q.key == key && q.lifetime == l;
        assert q in all;
      }
    }
    forall u ensures Misses(all, key, u) <==> Misses(pairs, key, u) || (p.key == key && u in p.after.snapshot.unavailable) {
      if Misses(pairs, key, u) {
        var q :| q in pairs && q.key == key && u in q.after.snapshot.unavailable;
        assert q in all;
      }
    }
  }

  lemma {:induction false} SumsMore(pairs: seq<Pair>, p: Pair, key: Key, interval: nat)
    ensures forall c :: RiseSum(pairs + [p], key, c) == RiseSum(pairs, key, c) + (if p.key == key then Rise(p, c) else 0)
    ensures CoveringSum(pairs + [p], key, interval)
         == CoveringSum(pairs, key, interval) + (if p.key == key then Covering(p.before, p.after, interval) else 0)
    ensures Count(pairs + [p], key) == Count(pairs, key) + (if p.key == key then 1 else 0)
  {
    assert (pairs + [p])[..|pairs|] == pairs;
  }

  lemma AbsorbSumsUp(g: Aggregate, pairs: seq<Pair>, key: Key, interval: nat, a: Add, p: Pair)
    requires SumsUp(g, pairs, key, interval) && Matches(a, p, interval)
    ensures SumsUp(if a.key == key then Absorb(g, a) else g, pairs + [p], key, interval)
  {
    WitnessMore(pairs, p, key);
    SumsMore(pairs, p, key, interval);
    hide Rises;
    hide From;
    hide Misses;
    hide RiseSum;
    hide CoveringSum;
    hide Count;
    hide Covering;
    if a.key == key {
      forall c ensures ValueAt(Absorb(g, a).values, c) == RiseSum(pairs + [p], key, c) {
        assert ValueAt(a.values, c) == Rise(p, c);
      }
    }
  }

  lemma {:induction false} TotalsSumUp(adds: seq<Add>, pairs: seq<Pair>, key: Key, interval: nat)
    requires Matching(adds, pairs, interval)
    ensures SumsUp(Totals(adds, key), pairs, key, interval)
    decreases |adds|
  {
    if adds != [] {
      hide SumsUp;
      hide Matches;
      var n := |adds| - 1;
      TotalsSumUp(adds[..n], pairs[..n], key, interval);
      AbsorbSumsUp(Totals(adds[..n], key), pairs[..n], key, interval, adds[n], pairs[n]);
      assert pairs == pairs[..n] + [pairs[n]];
    }
  }

  /**
   Along every run of non-decreasing sample times, what an aggregate says, reported or still open, is decided by the
   listings: each counter is the sum of later minus earlier readings over the pairs that count for it, its coverage is
   the sum of what they cover, and its containers and missing sources are theirs.
   */
  lemma {:induction false} AggregatesSumReadings(states: seq<Sampler>, events: seq<Event>, limits: Limits)
    requires IsRun(states, events, limits.states, limits.aggregates, limits.interval) && Forward(events)
    ensures var pairs, open := ReadEvents(events, limits).pairs, states[|events|].open;
            && (forall r :: r in AllOut(events) ==> SumsUp(r.aggregate, pairs, r.key, limits.interval))
            && (forall k :: k in open ==> SumsUp(open[k], pairs, k, limits.interval))
  {
    hide Takes;
    hide SumsUp;
    hide Matching;
    hide Good;
    RunInBook(states, events, limits);
    ReportedOnce(states, events, limits.states, limits.aggregates, limits.interval);
    var adds, pairs := AllAdds(events), ReadEvents(events, limits).pairs;
    RunGood(states, events, limits.states, limits.aggregates, limits.interval);
    forall k ensures SumsUp(Totals(adds, k), pairs, k, limits.interval) {
      TotalsSumUp(adds, pairs, k, limits.interval);
    }
  }

  // ---------------------------------------------------------------- what the pairs are

  /** Each pair begins where the one before it ended. */
  predicate Linked(pairs: seq<Pair>) {
    forall i :: 0 < i < |pairs| ==> pairs[i - 1].after == pairs[i].before
  }

  /** Readings that follow one another telescope: the counter rose by the last reading less the first. */
  lemma {:induction false} LinkedTelescope(pairs: seq<Pair>, key: Key, c: Counter)
    requires pairs != [] && Linked(pairs) && forall p :: p in pairs ==> p.key == key && Shared(p.before, p.after, c)
    ensures c in pairs[0].before.snapshot.counters && c in pairs[|pairs| - 1].after.snapshot.counters
    ensures pairs[0].before.snapshot.counters[c] + RiseSum(pairs, key, c) == pairs[|pairs| - 1].after.snapshot.counters[c]
    decreases |pairs|
  {
    var n := |pairs| - 1;
    assert pairs[0] in pairs && pairs[n] in pairs;
    if n > 0 {
      assert Linked(pairs[..n]);
      LinkedTelescope(pairs[..n], key, c);
      assert pairs[..n][n - 1] == pairs[n - 1];
    } else {
      assert pairs[..0] == [];
    }
  }

  /** How much a counter rose over the pairs of the lifetimes in `who`. */
  ghost function RiseOf(pairs: seq<Pair>, key: Key, c: Counter, who: set<Lifetime>): int {
    if pairs == [] then 0
    else
      var p := pairs[|pairs| - 1];
      RiseOf(pairs[..|pairs| - 1], key, c, who) + (if p.key == key && p.lifetime in who then Rise(p, c) else 0)
  }

  /** The pairs of one lifetime that count for one aggregate. */
  ghost function PairsOf(pairs: seq<Pair>, key: Key, l: Lifetime): seq<Pair> {
    if pairs == [] then []
    else
      var p := pairs[|pairs| - 1];
      PairsOf(pairs[..|pairs| - 1], key, l) + (if p.key == key && p.lifetime == l then [p] else [])
  }

  lemma {:induction false} RiseAll(pairs: seq<Pair>, key: Key, c: Counter, who: set<Lifetime>)
    requires forall p :: p in pairs && p.key == key ==> p.lifetime in who
    ensures RiseSum(pairs, key, c) == RiseOf(pairs, key, c, who)
  {
    if pairs != [] {
      hide Rise;
      assert pairs[|pairs| - 1] in pairs;
      RiseAll(pairs[..|pairs| - 1], key, c, who);
    }
  }

  lemma {:induction false} RiseSplit(pairs: seq<Pair>, key: Key, c: Counter, who: set<Lifetime>, l: Lifetime)
    requires l in who
    ensures RiseOf(pairs, key, c, who) == RiseOf(pairs, key, c, who - {l}) + RiseOf(pairs, key, c, {l})
  {
    if pairs != [] {
      hide Rise;
      RiseSplit(pairs[..|pairs| - 1], key, c, who, l);
    }
  }

  lemma {:induction false} PairsStep(pairs: seq<Pair>, key: Key, c: Counter, l: Lifetime)
    requires pairs != []
    ensures var front, p := pairs[..|pairs| - 1], pairs[|pairs| - 1];
            if p.key == key && p.lifetime == l
            then PairsOf(pairs, key, l) == PairsOf(front, key, l) + [p] && RiseOf(pairs, key, c, {l}) == RiseOf(front, key, c, {l}) + Rise(p, c)
            else PairsOf(pairs, key, l) == PairsOf(front, key, l) && RiseOf(pairs, key, c, {l}) == RiseOf(front, key, c, {l})
  {
    hide Rise;
    var mine := PairsOf(pairs[..|pairs| - 1], key, l);
    assert mine + [] == mine;
  }

  lemma {:induction false} RiseOne(pairs: seq<Pair>, key: Key, c: Counter, l: Lifetime)
    ensures RiseOf(pairs, key, c, {l}) == RiseSum(PairsOf(pairs, key, l), key, c)
    decreases |pairs|
  {
    if pairs == [] {
      assert PairsOf(pairs, key, l) == [];
    } else {
      hide Rise;
      hide RiseOf;
      hide PairsOf;
      hide RiseSum;
      var front, p := pairs[..|pairs| - 1], pairs[|pairs| - 1];
      PairsStep(pairs, key, c, l);
      RiseOne(front, key, c, l);
      SumsMore(PairsOf(front, key, l), p, key, 0);
    }
  }

  /** The rise of a counter is the sum over its lifetimes, and that of one lifetime is the rise over its own pairs. */
  lemma {:induction false} RiseByLifetime(pairs: seq<Pair>, key: Key, c: Counter, who: set<Lifetime>, l: Lifetime)
    requires l in who && forall p :: p in pairs && p.key == key ==> p.lifetime in who
    ensures RiseSum(pairs, key, c) == RiseOf(pairs, key, c, who - {l}) + RiseSum(PairsOf(pairs, key, l), key, c)
  {
    RiseAll(pairs, key, c, who);
    RiseSplit(pairs, key, c, who, l);
    RiseOne(pairs, key, c, l);
  }

  /** The last listing that did not fail, if any. */
  ghost predicate LastListing(events: seq<Event>, j: nat) {
    j < |events| && events[j].listing.Listed? && forall k :: j < k < |events| ==> events[k].listing.Failed?
  }

  /** The last reading of a lifetime that is followed was taken by the last listing that did not fail. */
  lemma {:induction false} LastReading(events: seq<Event>, limits: Limits, l: Lifetime)
    requires l in ReadEvents(events, limits).last
    ensures exists j: nat, g :: LastListing(events, j) && g in events[j].listing.cgroups && g.attribution.Some? && g.lifetime == l
              && ReadEvents(events, limits).last[l] == Previous(events[j].now, g.snapshot)
    decreases |events|
  {
    var n := |events| - 1;
    var front, e := events[..n], events[n];
    if e.listing.Failed? {
      LastReading(front, limits, l);
      var j: nat, g :| LastListing(front, j) && g in front[j].listing.cgroups && g.attribution.Some? && g.lifetime == l
                  && ReadEvents(front, limits).last[l] == Previous(front[j].now, g.snapshot);
      assert LastListing(events, j) && events[j] == front[j];
    } else {
      ReadLast(ReadEvents(front, limits), e.listing.cgroups, e.now, limits, l);
      assert LastListing(events, n);
    }
  }

  lemma {:induction false} ReadLast(b: Book, cgroups: seq<Cgroup>, now: int, limits: Limits, l: Lifetime)
    requires Resolves(cgroups, l) && l in ReadAll(b, cgroups, now, limits).last
    ensures exists g :: g in cgroups && g.attribution.Some? && g.lifetime == l
              && ReadAll(b, cgroups, now, limits).last[l] == Previous(now, g.snapshot)
    decreases |cgroups|
  {
    var n := |cgroups| - 1;
    var front, g := cgroups[..n], cgroups[n];
    assert cgroups == front + [g];
    var before := ReadAll(b, front, now, limits);
    if g.attribution.Some? && g.lifetime == l {
      assert l in before.last || |before.last| < limits.states;
      assert g in cgroups;
    } else {
      var h :| h in cgroups && h.attribution.Some? && h.lifetime == l;
      assert h in front;
      ReadLast(b, front, now, limits, l);
      var i :| i in front && i.attribution.Some? && i.lifetime == l && before.last[l] == Previous(now, i.snapshot);
      assert i in cgroups;
    }
  }
}
