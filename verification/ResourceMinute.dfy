/** Exactly when a container lifetime stays within the minute, in terms of its sample times. */
module ResourceMinute {
  import opened Text
  import opened Resource
  import opened ResourceCoverage

  /** The contributions of one lifetime to one bucket. */
  ghost function Mine(adds: seq<Add>, l: Lifetime, b: int): seq<Add> {
    if adds == [] then []
    else
      var a := adds[|adds| - 1];
      Mine(adds[..|adds| - 1], l, b) + (if a.lifetime == l && a.key.bucket == b then [a] else [])
  }

  ghost predicate AllMine(mine: seq<Add>, l: Lifetime, b: int) {
    forall a :: a in mine ==> a.lifetime == l && a.key.bucket == b
  }

  lemma {:induction false} MineIs(adds: seq<Add>, l: Lifetime, b: int, interval: nat)
    requires Chained(adds, interval)
    ensures var mine := Mine(adds, l, b);
            AllMine(mine, l, b) && Chained(mine, interval) && (forall a :: a in mine ==> a in adds) && Spent(mine, l, b) == Spent(adds, l, b)
  {
    if adds != [] {
      hide Honest;
      var a, front := adds[|adds| - 1], Mine(adds[..|adds| - 1], l, b);
      ChainedFront(adds, interval);
      MineIs(adds[..|adds| - 1], l, b, interval);
      if a.lifetime == l && a.key.bucket == b {
        MineMore(front, a, l, b, interval);
      } else {
        assert front + [] == front;
      }
    }
  }

  lemma {:induction false} MineMore(front: seq<Add>, a: Add, l: Lifetime, b: int, interval: nat)
    requires Chained(front, interval) && Honest(a, interval) && (forall c :: c in front && c.lifetime == a.lifetime ==> c.end <= a.start)
    ensures Chained(front + [a], interval) && (a.lifetime == l && a.key.bucket == b ==> Spent(front + [a], l, b) == Spent(front, l, b) + a.covered)
  {
    var all := front + [a];
    assert all[..|front|] == front && all[|front|] == a;
    forall i, j | 0 <= i < j < |all| && all[i].lifetime == all[j].lifetime ensures all[i].end <= all[j].start {
      if j == |front| {
        assert all[i] in front;
      }
    }
  }

  /** The time after the first contribution that nothing counts: gaps between contributions, and parts of a microsecond. */
  ghost function Uncounted(mine: seq<Add>): int {
    if |mine| <= 1 then 0
    else
      var last := mine[|mine| - 1];
      Uncounted(mine[..|mine| - 1]) + (last.start - mine[|mine| - 2].end) + (last.end - last.start) % 1000
  }

  /** The time after the first contribution that is counted. */
  ghost function After(mine: seq<Add>): int
    requires mine != []
  {
    mine[|mine| - 1].end - mine[0].end - Uncounted(mine)
  }

  lemma SpanInside(a: Add, c: Add, interval: nat, b: int)
    requires Honest(a, interval) && Honest(c, interval) && a.key.bucket == b == c.key.bucket && a.end <= c.start
    ensures Bucket(c.start) == b && 1000 * c.covered == (c.end - c.start) - (c.end - c.start) % 1000
  {
    BucketMonotone(a.end, c.start);
    BucketMonotone(c.start, c.end);
  }

  lemma {:induction false} LastOf(mine: seq<Add>, l: Lifetime, b: int)
    requires |mine| > 1 && AllMine(mine, l, b)
    ensures var n := |mine| - 1;
            && mine[n].lifetime == l && mine[n].key.bucket == b && AllMine(mine[..n], l, b)
            && Spent(mine, l, b) == Spent(mine[..n], l, b) + mine[n].covered
            && After(mine) == After(mine[..n]) + (mine[n].end - mine[n].start) - (mine[n].end - mine[n].start) % 1000
            && Uncounted(mine) == Uncounted(mine[..n]) + (mine[n].start - mine[n - 1].end) + (mine[n].end - mine[n].start) % 1000
  {
    var n := |mine| - 1;
    assert mine[n] in mine && mine[..n][n - 1] == mine[n - 1];
    assert forall a :: a in mine[..n] ==> a in mine;
  }

  /** Later contributions count the time since the first one ended, less what nothing counts. */
  lemma {:induction false} SpentIs(mine: seq<Add>, l: Lifetime, b: int, interval: nat)
    requires mine != [] && AllMine(mine, l, b) && Chained(mine, interval)
    ensures 1000 * Spent(mine, l, b) == 1000 * mine[0].covered + After(mine)
    ensures Uncounted(mine) >= 0
    decreases |mine|
  {
    hide Honest;
    hide Bucket;
    var n := |mine| - 1;
    if n == 0 {
      assert mine[0] in mine && mine[..0] == [];
    } else {
      assert Honest(mine[n - 1], interval) && Honest(mine[n], interval) && mine[n - 1].end <= mine[n].start by {
        assert mine[n - 1] in mine && mine[n] in mine;
      }
      ChainedFront(mine, interval);
      hide Chained;
      hide Spent;
      hide Uncounted;
      hide After;
      LastOf(mine, l, b);
      SpentIs(mine[..n], l, b, interval);
      assert mine[n - 1].key.bucket == b by {
        assert mine[n - 1] in mine;
      }
      SpanInside(mine[n - 1], mine[n], interval, b);
    }
  }

  /** The coverage counted for a span that crosses into the bucket: no more than one interval. */
  function Crossing(a: Add, interval: nat): int {
    var span := (a.end - a.start) / 1000;
    if span <= interval * 1_000_000 then span else interval * 1_000_000
  }

  /**
   The condition on sample times: the first sample of the bucket follows one in the same bucket, or what counts of the
   step across the boundary and of the time after it is at most a minute.
   */
  ghost predicate WithinMinute(mine: seq<Add>, b: int, interval: nat) {
    mine == [] || Bucket(mine[0].start) == b || 1000 * Crossing(mine[0], interval) + After(mine) <= MINUTE
  }

  lemma FirstCovered(a: Add, interval: nat)
    requires Honest(a, interval)
    ensures Bucket(a.start) == Bucket(a.end) ==> a.covered == (a.end - a.start) / 1000
    ensures Bucket(a.start) != Bucket(a.end) ==> a.covered == Crossing(a, interval)
  {
    hide Bucket;
  }

  /** A lifetime covers at most the minute of a bucket if and only if its sample times there satisfy the condition. */
  lemma {:induction false} MinuteExact(adds: seq<Add>, l: Lifetime, b: int, interval: nat)
    requires Chained(adds, interval)
    ensures Spent(adds, l, b) <= MINUTE_USEC <==> WithinMinute(Mine(adds, l, b), b, interval)
  {
    hide Honest;
    hide Bucket;
    hide Spent;
    hide Uncounted;
    hide Crossing;
    var mine := Mine(adds, l, b);
    MineIs(adds, l, b, interval);
    hide Mine;
    if mine == [] {
      NothingSpent(l, b);
    } else {
      MineEnds(mine, l, b, interval);
      SpentIs(mine, l, b, interval);
      hide Chained;
      hide AllMine;
      FirstCovered(mine[0], interval);
    }
  }

  lemma {:induction false} NothingSpent(l: Lifetime, b: int)
    ensures Spent([], l, b) == 0
  {}

  lemma MineEnds(mine: seq<Add>, l: Lifetime, b: int, interval: nat)
    requires mine != [] && AllMine(mine, l, b) && Chained(mine, interval)
    ensures var first, last := mine[0], mine[|mine| - 1];
            && Honest(first, interval) && Bucket(first.end) == b <= first.end && first.start <= first.end
            && Bucket(last.end) == b && last.end < b + MINUTE
            && (Bucket(first.start) == b ==> b <= first.start)
  {
    hide Bucket;
    assert mine[0] in mine && mine[|mine| - 1] in mine;
    BucketFacts(mine[0].end);
    BucketFacts(mine[0].start);
    BucketFacts(mine[|mine| - 1].end);
  }

  /** The contributions follow one another without a gap, in whole microseconds. */
  ghost predicate GapFree(mine: seq<Add>) {
    forall i :: 1 <= i < |mine| ==> mine[i].start == mine[i - 1].end && (mine[i].end - mine[i].start) % 1000 == 0
  }

  /** Then all the time between them counts. */
  lemma {:induction false} NothingUncounted(mine: seq<Add>)
    requires GapFree(mine) && mine != []
    ensures Uncounted(mine) == 0 && After(mine) == mine[|mine| - 1].end - mine[0].end && After(mine) % 1000 == 0
    decreases |mine|
  {
    if |mine| > 1 {
      NothingUncounted(mine[..|mine| - 1]);
    }
  }

  lemma InMicroseconds(crossing: int, after: int)
    requires after % 1000 == 0
    ensures 1000 * crossing + after <= MINUTE <==> after / 1000 + crossing <= MINUTE_USEC
  {}

  /** And the condition needs the first and the last contribution only. */
  lemma {:induction false} GapFreeMinuteExact(adds: seq<Add>, l: Lifetime, b: int, interval: nat)
    requires Chained(adds, interval) && Mine(adds, l, b) != [] && GapFree(Mine(adds, l, b))
    ensures var first, last := Mine(adds, l, b)[0], Mine(adds, l, b)[|Mine(adds, l, b)| - 1];
            Spent(adds, l, b) <= MINUTE_USEC
            <==> Bucket(first.start) == b || (last.end - first.end) / 1000 + Crossing(first, interval) <= MINUTE_USEC
  {
    hide Bucket;
    hide Crossing;
    hide Spent;
    hide After;
    MinuteExact(adds, l, b, interval);
    var mine := Mine(adds, l, b);
    hide Mine;
    hide Chained;
    NothingUncounted(mine);
    InMicroseconds(Crossing(mine[0], interval), After(mine));
  }

  // ---------------------------------------------------------------- exactly periodic samples

  /** The span is a whole number of sample intervals: both ends lie at the same phase. */
  predicate Periodic(a: Add, interval: nat)
    requires interval > 0
  {
    a.start % (interval * SECOND) == a.end % (interval * SECOND)
  }

  lemma PhaseSpan(start: int, end: int, step: nat) returns (k: nat)
    requires step > 0 && start <= end && start % step == end % step
    ensures end - start == k * step
  {
    var first, last := start / step, end / step;
    assert end - start == (last - first) * step;
    assert first <= last;
    k := last - first;
  }

  lemma WholeSeconds(k: nat, interval: nat)
    ensures (k * (interval * SECOND)) % 1000 == 0
  {
    assert k * (interval * SECOND) == (k * interval * 1_000_000) * 1000;
  }

  /** What periodic samples count after the first is a whole number of intervals. */
  lemma {:induction false} AfterMultiple(mine: seq<Add>, interval: nat) returns (k: nat)
    requires interval > 0 && mine != [] && (forall a :: a in mine ==> Periodic(a, interval) && a.start <= a.end)
    ensures After(mine) == k * (interval * SECOND)
    decreases |mine|
  {
    k := 0;
    var n := |mine| - 1;
    if n > 0 {
      var last := mine[n];
      assert last in mine;
      k := AfterMultiple(mine[..n], interval);
      var more := PhaseSpan(last.start, last.end, interval * SECOND);
      WholeSeconds(more, interval);
      Distribute(k, more, interval * SECOND);
      k := k + more;
    }
  }

  lemma Fewer(j: nat, k: nat, n: nat)
    requires n > 0 && j * n < k * n
    ensures (j + 1) * n <= k * n
  {
    if j >= k {
      Distribute(k, j - k, n);
    } else {
      Distribute(j + 1, k - j - 1, n);
    }
  }

  /** With exactly periodic samples and an interval that divides a minute, a lifetime never overfills its minute. */
  lemma {:induction false} PeriodicMinuteBound(adds: seq<Add>, l: Lifetime, b: int, interval: nat)
    requires 0 < interval <= 60 && 60 % interval == 0
    requires Chained(adds, interval) && (forall a :: a in adds ==> Periodic(a, interval))
    ensures Spent(adds, l, b) <= MINUTE_USEC
  {
    hide Bucket;
    hide Periodic;
    hide Spent;
    hide Uncounted;
    var mine := Mine(adds, l, b);
    MineIs(adds, l, b, interval);
    MinuteExact(adds, l, b, interval);
    hide Mine;
    if mine != [] {
      MineEnds(mine, l, b, interval);
      SpentIs(mine, l, b, interval);
      MineForward(mine, interval);
      hide Chained;
      hide Honest;
      var k := AfterMultiple(mine, interval);
      PeriodicFits(After(mine), k, interval);
    }
  }

  lemma MineForward(mine: seq<Add>, interval: nat)
    requires Chained(mine, interval)
    ensures forall a :: a in mine ==> a.start <= a.end
  {}

  lemma PeriodicFits(after: int, k: nat, interval: nat)
    requires 0 < interval && 60 % interval == 0 && after == k * (interval * SECOND) && after < MINUTE
    ensures interval * SECOND + after <= MINUTE
  {
    var n, step := 60 / interval, interval * SECOND;
    assert n * interval == 60;
    assert n * step == MINUTE by {
      assert n * step == (n * interval) * SECOND;
    }
    Fewer(k, n, step);
    Distribute(k, 1, step);
  }
}
