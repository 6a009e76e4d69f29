/** Two runs that fall outside the sampler's guarantees: a clock that steps back, and a sample that comes late. */
module ResourceExamples {
  import opened Text
  import opened Resource
  import opened ResourceRuns

  const NOWHERE: Workload := Workload("", "", "", "", "", None)
  const NOTHING: Snapshot := Snapshot(map[], {})

  function Unit(route: nat): Cgroup { Cgroup(Lifetime(route, ""), Some(Attribution(route, NOWHERE)), NOTHING) }

  function At(seconds: int): Previous { Previous(seconds * SECOND, NOTHING) }

  function MinuteKey(route: nat, seconds: int): Key { Key(route, seconds * SECOND, NOWHERE) }

  function Span(route: nat, start: int, end: int, bucket: int, usec: nat): Add {
    Add(MinuteKey(route, bucket), Lifetime(route, ""), start * SECOND, end * SECOND, usec, {}, map[])
  }

  function Holding(previous: map<Lifetime, Previous>, open: map<Key, Aggregate>): Sampler {
    Sampler(8, 8, 10, previous, open)
  }

  function Single(route: nat, usec: nat, samples: nat): Aggregate { Aggregate(usec, samples, {Lifetime(route, "")}, {}, map[]) }

  /** A sample of one container when nothing is due. */
  lemma QuietSample(s: Sampler, route: nat, seconds: int, adds: seq<Add>, t: Sampler)
    requires forall k :: k in s.open ==> k.bucket >= Bucket(seconds * SECOND)
    requires var r := SampleOne(s, Unit(route), seconds * SECOND);
             adds == r.adds && t == Retain(r.next, {Lifetime(route, "")})
    ensures Takes(s, Event(seconds * SECOND, Listed([Unit(route)]), [], adds), t)
  {
    hide SampleOne;
    hide Flushes;
    hide SampleAll;
    hide Bucket;
    QuietFlush(s, Bucket(seconds * SECOND));
    SampleSingle(s, Unit(route), seconds * SECOND);
    assert Proceeds(s, seconds * SECOND, Listed([Unit(route)]), adds, t);
  }

  lemma QuietFlush(s: Sampler, boundary: int)
    requires forall k :: k in s.open ==> k.bucket >= boundary
    ensures Flushes(s, boundary, [], s)
  {
    FlushExact(s.open, boundary);
    assert Taken(s.open, boundary) == {};
    assert s.open - {} == s.open;
  }

  lemma {:induction false} SampleSingle(s: Sampler, c: Cgroup, now: int)
    requires c.attribution.Some?
    ensures SampleAll(s, [c], now) == SampleOne(s, c, now) && Seen([c]) == {c.lifetime}
  {
    hide SampleOne;
    assert [c][..0] == [];
    assert [] + SampleOne(s, c, now).adds == SampleOne(s, c, now).adds;
    assert c in [c];
  }

  /** The first sample of a container only sets its baseline. */
  lemma FirstSample(s: Sampler, route: nat, seconds: int)
    requires Lifetime(route, "") !in s.previous && |s.previous| < s.stateLimit
    requires forall k :: k in s.open ==> k.bucket >= Bucket(seconds * SECOND)
    ensures Takes(s, Event(seconds * SECOND, Listed([Unit(route)]), [], []),
                  s.(previous := map[Lifetime(route, "") := At(seconds)]))
  {
    var l := Lifetime(route, "");
    var t := s.(previous := map[l := At(seconds)]);
    assert Retain(s.(previous := s.previous[l := At(seconds)]), {l}).previous == t.previous;
    QuietSample(s, route, seconds, [], t);
  }

  /** A later sample adds its span to the minute it ends in. */
  lemma NextSample(s: Sampler, route: nat, start: int, end: int, bucket: int, usec: nat)
    requires s.previous == map[Lifetime(route, "") := At(start)] && |s.open| < s.aggregateLimit
    requires Bucket(end * SECOND) == bucket * SECOND && UsableCoverage(start * SECOND, end * SECOND, s.interval) == Some(usec)
    requires forall k :: k in s.open ==> k.bucket >= bucket * SECOND
    ensures var a := Span(route, start, end, bucket, usec);
            Takes(s, Event(end * SECOND, Listed([Unit(route)]), [], [a]),
                  s.(previous := map[Lifetime(route, "") := At(end)], open := s.open[a.key := Absorb(OpenAt(s, a.key), a)]))
  {
    hide UsableCoverage;
    hide Bucket;
    hide Absorb;
    var l, a, now := Lifetime(route, ""), Span(route, start, end, bucket, usec), end * SECOND;
    var moved := s.(previous := s.previous[l := At(end)]);
    assert moved.previous == map[l := At(end)];
    assert !CounterReset(NOTHING, NOTHING);
    assert Delta(NOTHING, NOTHING) == map[];
    assert Contribution(At(start), Unit(route), now, s.interval) == Some(a);
    var t := moved.(open := s.open[a.key := Absorb(OpenAt(s, a.key), a)]);
    assert AddTo(moved, a) == t;
    assert SampleOne(s, Unit(route), now) == Sampled(t, [a]);
    assert Retain(t, {l}).previous == t.previous;
    QuietSample(s, route, end, [a], t);
  }

  // ---------------------------------------------------------------- a clock that steps back

  const LATE_MINUTE: Add := Span(1, 60, 65, 60, 5_000_000)
  const EARLY_MINUTE: Add := Span(2, 0, 5, 0, 5_000_000)

  ghost function BackStates(): seq<Sampler> {
    var first := map[LATE_MINUTE.key := Absorb(EMPTY, LATE_MINUTE)];
    var l1, l2 := Lifetime(1, ""), Lifetime(2, "");
    [ Init(8, 8, 10),
      Holding(map[l1 := At(60)], map[]),
      Holding(map[l1 := At(65)], first),
      Holding(map[l2 := At(0)], first),
      Holding(map[l2 := At(5)], first[EARLY_MINUTE.key := Absorb(EMPTY, EARLY_MINUTE)]) ]
  }

  ghost function BackEvents(): seq<Event> {
    [ Event(60 * SECOND, Listed([Unit(1)]), [], []),
      Event(65 * SECOND, Listed([Unit(1)]), [], [LATE_MINUTE]),
      Event(0 * SECOND, Listed([Unit(2)]), [], []),
      Event(5 * SECOND, Listed([Unit(2)]), [], [EARLY_MINUTE]) ]
  }

  lemma BackIsRun()
    ensures IsRun(BackStates(), BackEvents(), 8, 8, 10)
  {
    hide Takes;
    hide Absorb;
    var s := BackStates();
    FirstSample(s[0], 1, 60);
    assert s[1].open[LATE_MINUTE.key := Absorb(EMPTY, LATE_MINUTE)] == s[2].open;
    NextSample(s[1], 1, 60, 65, 60, 5_000_000);
    FirstSample(s[2], 2, 0);
    NextSample(s[3], 2, 0, 5, 0, 5_000_000);
  }

  /**
   If the clock steps back between samples, a later flush can stop early: this run leaves an aggregate of minute 0
   open behind a key of minute 1 of an earlier route, and the flush at second 70 leaves it there.
   */
  lemma ClockStepBackStrandsAnAggregate()
    ensures IsRun(BackStates(), BackEvents(), 8, 8, 10) && !Forward(BackEvents())
    ensures var open := BackStates()[4].open;
            EARLY_MINUTE.key in Expired(open, Bucket(70 * SECOND)) && EARLY_MINUTE.key !in Taken(open, Bucket(70 * SECOND))
  {
    BackIsRun();
    var events := BackEvents();
    assert events[1].now > events[2].now;
    var open := BackStates()[4].open;
    assert LATE_MINUTE.key in open && EARLY_MINUTE.key in open;
    assert Precedes(LATE_MINUTE.key, EARLY_MINUTE.key);
    assert Bucket(70 * SECOND) == 60 * SECOND;
  }

  // ---------------------------------------------------------------- a late sample

  const CROSSING: Add := Span(1, 55, 65, 60, 10_000_000)
  const LATE: Add := Span(1, 65, 119, 60, 54_000_000)

  ghost function LateStates(): seq<Sampler> {
    var l := Lifetime(1, "");
    [ Init(8, 8, 10),
      Holding(map[l := At(55)], map[]),
      Holding(map[l := At(65)], map[CROSSING.key := Single(1, 10_000_000, 1)]),
      Holding(map[l := At(119)], map[CROSSING.key := Single(1, 64_000_000, 2)]),
      Holding(map[l := At(119)], map[]) ]
  }

  ghost function LateEvents(): seq<Event> {
    [ Event(55 * SECOND, Listed([Unit(1)]), [], []),
      Event(65 * SECOND, Listed([Unit(1)]), [], [CROSSING]),
      Event(119 * SECOND, Listed([Unit(1)]), [], [LATE]),
      Event(120 * SECOND, Failed, [Report(CROSSING.key, Single(1, 64_000_000, 2))], []) ]
  }

  lemma Absorbing(g: Aggregate, a: Add)
    requires g.values == map[] && a.values == map[] && g.unavailable == {} && a.unavailable == {}
    ensures Absorb(g, a) == Aggregate(g.covered + a.covered, g.samples + 1, g.contributors + {a.lifetime}, {}, map[])
  {
    assert Merge(g.values, a.values) == map[];
  }

  lemma LateFlush(s: Sampler, key: Key, g: Aggregate)
    requires s.open == map[key := g] && key.bucket == 60 * SECOND
    ensures Takes(s, Event(120 * SECOND, Failed, [Report(key, g)], []), s.(open := map[]))
  {
    var boundary := Bucket(120 * SECOND);
    assert boundary == 120 * SECOND;
    UniformFlush(s.open, boundary);
    var m := s.(open := map[]);
    assert s.open - {key} == map[];
    assert Expired(s.open, boundary) == {key};
    assert Report(key, g) in [Report(key, g)];
    assert Flushes(s, boundary, [Report(key, g)], m);
    assert Proceeds(m, 120 * SECOND, Failed, [], m);
  }

  lemma LateIsRun()
    ensures IsRun(LateStates(), LateEvents(), 8, 8, 10)
  {
    hide Takes;
    hide Absorb;
    var s := LateStates();
    FirstSample(s[0], 1, 55);
    Absorbing(EMPTY, CROSSING);
    assert s[1].open[CROSSING.key := Single(1, 10_000_000, 1)] == s[2].open;
    NextSample(s[1], 1, 55, 65, 60, 10_000_000);
    Absorbing(Single(1, 10_000_000, 1), LATE);
    assert s[2].open[CROSSING.key := Single(1, 64_000_000, 2)] == s[3].open;
    NextSample(s[2], 1, 65, 119, 60, 54_000_000);
    LateFlush(s[3], CROSSING.key, Single(1, 64_000_000, 2));
  }

  /**
   Without exact periods a minute can be overfilled: one sample across the boundary and a late one inside report
   64 seconds of one container's minute, which the receiver's coverage check refuses.
   */
  lemma LateSampleOverfillsTheMinute()
    ensures IsRun(LateStates(), LateEvents(), 8, 8, 10) && Forward(LateEvents())
    ensures exists r :: r in AllOut(LateEvents()) && r.aggregate.covered > MINUTE_USEC * |r.aggregate.contributors| && !CoverageAccepted(r.aggregate)
  {
    LateIsRun();
    var events := LateEvents();
    var r := Report(CROSSING.key, Single(1, 64_000_000, 2));
    assert events[3].completed == [r];
    assert r in AllOut(events[..3]) + events[3].completed;
    assert AllOut(events) == AllOut(events[..3]) + events[3].completed;
    assert |r.aggregate.contributors| == 1;
  }
}
