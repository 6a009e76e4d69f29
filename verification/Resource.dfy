/** The resource sampler on values: minute buckets, usable coverage, and the early-stopping flush. */
module Resource {
  import opened Text

  const MINUTE: int := 60_000_000_000      // nanoseconds
  const MINUTE_USEC: nat := 60_000_000

  datatype Lifetime = Lifetime(inode: nat, container: string)

  datatype Workload = Workload(namespace: string, uid: string, kind: string, name: string, container: string, release: Option<seq<byte>>)

  /** Ordered by route first and bucket second. */
  datatype Key = Key(route: nat, bucket: int, workload: Workload)

  datatype Attribution = Attribution(route: nat, workload: Workload)

  datatype Counter =
    | CpuUsage | CpuPeriods | CpuThrottled | CpuThrottledTime
    | MemoryHigh | MemoryMax | MemoryOom | MemoryOomKill
    | CpuPsiSome | CpuPsiFull | MemoryPsiSome | MemoryPsiFull | IoPsiSome | IoPsiFull
    | IoReadBytes | IoWriteBytes | IoReadOperations | IoWriteOperations | PidsMax

  /** The counters a cgroup offers, and the numbers of its missing sources. */
  datatype Snapshot = Snapshot(counters: map<Counter, nat>, unavailable: set<nat>)

  datatype Previous = Previous(at: int, snapshot: Snapshot)

  /** Nothing in place of the attribution means that it did not resolve. */
  datatype Cgroup = Cgroup(lifetime: Lifetime, attribution: Option<Attribution>, snapshot: Snapshot)

  datatype Listing = Failed | Listed(cgroups: seq<Cgroup>)

  datatype Aggregate = Aggregate(covered: nat, samples: nat, contributors: set<Lifetime>, unavailable: set<nat>, values: map<Counter, nat>)

  const EMPTY: Aggregate := Aggregate(0, 0, {}, {}, map[])

  datatype Report = Report(key: Key, aggregate: Aggregate)

  /** One contribution: a lifetime's coverage between two of its samples. */
  datatype Add = Add(key: Key, lifetime: Lifetime, start: int, end: int, covered: nat, unavailable: set<nat>, values: map<Counter, nat>)

  datatype Sampler = Sampler(stateLimit: nat, aggregateLimit: nat, interval: nat, previous: map<Lifetime, Previous>, open: map<Key, Aggregate>)

  function Init(stateLimit: nat, aggregateLimit: nat, interval: nat): Sampler {
    Sampler(stateLimit, aggregateLimit, interval, map[], map[])
  }

  function Saturated(n: nat): nat { if n <= U64_MAX then n else U64_MAX }

  function Bucket(t: int): int { t - t % MINUTE }

  /** Whole microseconds, truncated toward zero. */
  function Microseconds(d: int): int { if d >= 0 then d / 1000 else -((-d) / 1000) }

  function UsableCoverage(start: int, end: int, interval: nat): Option<nat> {
    var covered := Microseconds(end - start);
    if covered < 0 || covered > 0x7fff_ffff_ffff_ffff then None
    else if Bucket(start) == Bucket(end) then Some(covered)
    else if covered > Saturated(Saturated(interval + 2) * 1_000_000) then None
    else
      var longest := Saturated(interval * 1_000_000);
      Some(if covered <= longest then covered else longest)
  }

  /** Some counter present in both moved backwards. */
  predicate CounterReset(current: Snapshot, previous: Snapshot) {
    exists c :: c in current.counters && c in previous.counters && current.counters[c] < previous.counters[c]
  }

  function Delta(current: Snapshot, previous: Snapshot): map<Counter, nat>
    requires !CounterReset(current, previous)
  {
    map c | c in current.counters && c in previous.counters :: current.counters[c] - previous.counters[c]
  }

  function ValueAt(m: map<Counter, nat>, c: Counter): nat { if c in m then m[c] else 0 }

  function Merge(target: map<Counter, nat>, value: map<Counter, nat>): map<Counter, nat> {
    map c | c in target.Keys + value.Keys :: ValueAt(target, c) + ValueAt(value, c)
  }

  function Absorb(g: Aggregate, a: Add): Aggregate {
    Aggregate(g.covered + a.covered, g.samples + 1, g.contributors + {a.lifetime}, g.unavailable + a.unavailable, Merge(g.values, a.values))
  }

  /** The contribution a sample of `cgroup` makes, if its baseline is usable. */
  function Contribution(before: Previous, cgroup: Cgroup, now: int, interval: nat): Option<Add>
    requires cgroup.attribution.Some?
  {
    var covered := UsableCoverage(before.at, now, interval);
    if covered.None? || CounterReset(cgroup.snapshot, before.snapshot) then None
    else
      var who := cgroup.attribution.value;
      Some(Add(Key(who.route, Bucket(now), who.workload), cgroup.lifetime, before.at, now, covered.value,
               cgroup.snapshot.unavailable, Delta(cgroup.snapshot, before.snapshot)))
  }

  predicate Dropped(s: Sampler, a: Add) { a.key !in s.open && |s.open| >= s.aggregateLimit }

  function OpenAt(s: Sampler, key: Key): Aggregate { if key in s.open then s.open[key] else EMPTY }

  function AddTo(s: Sampler, a: Add): Sampler {
    if Dropped(s, a) then s else s.(open := s.open[a.key := Absorb(OpenAt(s, a.key), a)])
  }

  /** A state with the contributions it took in. */
  datatype Sampled = Sampled(next: Sampler, adds: seq<Add>)

  function SampleOne(s: Sampler, cgroup: Cgroup, now: int): Sampled {
    var baseline := Previous(now, cgroup.snapshot);
    if cgroup.attribution.None? then Sampled(s, [])
    else if cgroup.lifetime !in s.previous then
      Sampled(if |s.previous| < s.stateLimit then s.(previous := s.previous[cgroup.lifetime := baseline]) else s, [])
    else
      var given := Contribution(s.previous[cgroup.lifetime], cgroup, now, s.interval);
      var moved := s.(previous := s.previous[cgroup.lifetime := baseline]);
      if given.None? then Sampled(moved, [])
      else Sampled(AddTo(moved, given.value), if Dropped(moved, given.value) then [] else [given.value])
  }

  function SampleAll(s: Sampler, cgroups: seq<Cgroup>, now: int): Sampled {
    if cgroups == [] then Sampled(s, [])
    else
      var before := SampleAll(s, cgroups[..|cgroups| - 1], now);
      var last := SampleOne(before.next, cgroups[|cgroups| - 1], now);
      Sampled(last.next, before.adds + last.adds)
  }

  function Seen(cgroups: seq<Cgroup>): set<Lifetime> {
    set g | g in cgroups && g.attribution.Some? :: g.lifetime
  }

  function Retain(s: Sampler, seen: set<Lifetime>): Sampler {
    s.(previous := map l | l in s.previous && l in seen :: s.previous[l])
  }

  // ---------------------------------------------------------------- the flush

  /** Keys come in this order; how keys of one route and bucket are ordered makes no difference to the flush. */
  predicate Precedes(k: Key, l: Key) { k.route < l.route || (k.route == l.route && k.bucket <= l.bucket) }

  /** What `take_while` takes: the keys all of whose predecessors are before the boundary. */
  ghost function Taken(open: map<Key, Aggregate>, boundary: int): set<Key> {
    set k | k in open && (forall l :: l in open && Precedes(l, k) ==> l.bucket < boundary)
  }

  /** What a full filter takes. */
  ghost function Expired(open: map<Key, Aggregate>, boundary: int): set<Key> {
    set k | k in open && k.bucket < boundary
  }

  /** `completed` reports each of `keys` once, in order. */
  ghost predicate Reports(completed: seq<Report>, keys: set<Key>, open: map<Key, Aggregate>) {
    && (forall r :: r in completed ==> r.key in keys && r.key in open && r.aggregate == open[r.key])
    && (forall k :: k in keys ==> exists r :: r in completed && r.key == k)
    && (forall i, j :: 0 <= i < j < |completed| ==> completed[i].key != completed[j].key && Precedes(completed[i].key, completed[j].key))
  }

  ghost predicate Flushes(s: Sampler, boundary: int, completed: seq<Report>, t: Sampler) {
    var taken := Taken(s.open, boundary);
    Reports(completed, taken, s.open) && t == s.(open := s.open - taken)
  }

  /** `sample`, ending in state `t`. */
  ghost predicate Samples(s: Sampler, now: int, listing: Listing, completed: seq<Report>, adds: seq<Add>, t: Sampler) {
    exists m :: Flushes(s, Bucket(now), completed, m) && Proceeds(m, now, listing, adds, t)
  }

  ghost predicate Proceeds(m: Sampler, now: int, listing: Listing, adds: seq<Add>, t: Sampler) {
    match listing
    case Failed => t == m && adds == []
    case Listed(cgroups) =>
      var r := SampleAll(m, cgroups, now);
      t == Retain(r.next, Seen(cgroups)) && adds == r.adds
  }

  // ---------------------------------------------------------------- early stopping

  /** Some key at or past the boundary belongs to an earlier route than some key before it. */
  ghost predicate Straddles(open: map<Key, Aggregate>, boundary: int) {
    exists k, l :: k in open && l in open && k.route < l.route && k.bucket >= boundary > l.bucket
  }

  /** The early-stopping flush takes exactly what a full filter takes unless the open keys straddle the boundary. */
  lemma FlushExact(open: map<Key, Aggregate>, boundary: int)
    ensures Taken(open, boundary) <= Expired(open, boundary)
    ensures Taken(open, boundary) == Expired(open, boundary) <==> !Straddles(open, boundary)
  {
    forall k | k in Taken(open, boundary) ensures k in Expired(open, boundary) {
      assert Precedes(k, k);
    }
    if Straddles(open, boundary) {
      var k, l :| k in open && l in open && k.route < l.route && k.bucket >= boundary > l.bucket;
      assert Precedes(k, l);
      assert l in Expired(open, boundary) && l !in Taken(open, boundary);
    } else {
      forall l | l in Expired(open, boundary) ensures l in Taken(open, boundary) {
        forall k | k in open && Precedes(k, l) ensures k.bucket < boundary {
          assert !(k.route < l.route && k.bucket >= boundary > l.bucket);
        }
      }
    }
  }

  /** All open aggregates lie in one bucket. */
  ghost predicate Uniform(open: map<Key, Aggregate>) {
    forall k, l :: k in open && l in open ==> k.bucket == l.bucket
  }

  lemma UniformFlush(open: map<Key, Aggregate>, boundary: int)
    requires Uniform(open)
    ensures Taken(open, boundary) == Expired(open, boundary)
  {
    FlushExact(open, boundary);
  }
}
