/** How much coverage one container lifetime can put into one minute, and what an aggregate sums up. */
module ResourceCoverage {
  import opened Text
  import opened Resource

  // ---------------------------------------------------------------- sums over contributions

  /** The coverage a lifetime put into a bucket, over all aggregates. */
  ghost function Spent(adds: seq<Add>, l: Lifetime, b: int): nat {
    if adds == [] then 0
    else
      var a := adds[|adds| - 1];
      Spent(adds[..|adds| - 1], l, b) + (if a.lifetime == l && a.key.bucket == b then a.covered else 0)
  }

  /** The coverage the lifetimes in `who` put into the aggregate `key`. */
  ghost function SpentBy(adds: seq<Add>, key: Key, who: set<Lifetime>): nat {
    if adds == [] then 0
    else
      var a := adds[|adds| - 1];
      SpentBy(adds[..|adds| - 1], key, who) + (if a.key == key && a.lifetime in who then a.covered else 0)
  }

  /** What an aggregate holds once it has taken in its share of `adds`. */
  ghost function Totals(adds: seq<Add>, key: Key): Aggregate {
    if adds == [] then EMPTY
    else
      var before := Totals(adds[..|adds| - 1], key);
      if adds[|adds| - 1].key == key then Absorb(before, adds[|adds| - 1]) else before
  }

  ghost predicate Touched(adds: seq<Add>, key: Key) { exists a :: a in adds && a.key == key }

  /** A run's contributions: each is the usable coverage of its span, and a lifetime's spans follow one another. */
  ghost predicate Honest(a: Add, interval: nat) {
    && a.start <= a.end && a.key.bucket == Bucket(a.end) && UsableCoverage(a.start, a.end, interval) == Some(a.covered)
  }

  ghost predicate Chained(adds: seq<Add>, interval: nat) {
    && (forall a :: a in adds ==> Honest(a, interval))
    && (forall i, j :: 0 <= i < j < |adds| && adds[i].lifetime == adds[j].lifetime ==> adds[i].end <= adds[j].start)
  }

  /** Every contribution of `l` ended by time `t`. */
  ghost predicate EndedBy(adds: seq<Add>, l: Lifetime, t: int) {
    forall a :: a in adds && a.lifetime == l ==> a.end <= t
  }

  lemma ChainedFront(adds: seq<Add>, interval: nat)
    requires Chained(adds, interval) && adds != []
    ensures Chained(adds[..|adds| - 1], interval)
    ensures EndedBy(adds[..|adds| - 1], adds[|adds| - 1].lifetime, adds[|adds| - 1].start)
  {
    var front := adds[..|adds| - 1];
    assert forall i :: 0 <= i < |front| ==> front[i] == adds[i];
    forall a | a in front && a.lifetime == adds[|adds| - 1].lifetime ensures a.end <= adds[|adds| - 1].start {
      var i :| 0 <= i < |front| && front[i] == a;
      assert adds[i].lifetime == adds[|adds| - 1].lifetime;
    }
  }

  /** Buckets are whole minutes and follow time. */
  lemma BucketFacts(t: int)
    ensures Bucket(t) <= t < Bucket(t) + MINUTE
  {}

  lemma BucketMonotone(t: int, u: int)
    requires t <= u
    ensures Bucket(t) <= Bucket(u)
  {
    var a, b := t / MINUTE, u / MINUTE;
    assert Bucket(t) == a * MINUTE && Bucket(u) == b * MINUTE;
  }

  lemma {:induction false} SpentNone(adds: seq<Add>, l: Lifetime, b: int, interval: nat, t: int)
    requires Chained(adds, interval) && EndedBy(adds, l, t) && Bucket(t) < b
    ensures Spent(adds, l, b) == 0
  {
    if adds != [] {
      hide UsableCoverage;
      hide Bucket;
      var a := adds[|adds| - 1];
      ChainedFront(adds, interval);
      assert Honest(a, interval);
      SpentNone(adds[..|adds| - 1], l, b, interval, t);
      if a.lifetime == l {
        BucketMonotone(a.end, t);
      }
    }
  }

  /** By time `t` of a bucket a lifetime has put at most the time since the bucket began plus one interval into it. */
  lemma {:induction false} SpentBounded(adds: seq<Add>, l: Lifetime, b: int, interval: nat, t: int)
    requires Chained(adds, interval) && EndedBy(adds, l, t) && Bucket(t) == b
    ensures Spent(adds, l, b) <= (t - b) / 1000 + interval * 1_000_000
    decreases |adds|
  {
    if adds != [] {
      hide UsableCoverage;
      hide Bucket;
      var a := adds[|adds| - 1];
      ChainedFront(adds, interval);
      var front := adds[..|adds| - 1];
      BucketFacts(t);
      assert Honest(a, interval);
      if a.lifetime != l || a.key.bucket != b {
        assert EndedBy(front, l, t);
        SpentBounded(front, l, b, interval, t);
      } else if Bucket(a.start) == b {
        SpentBounded(front, l, b, interval, a.start);
        WithinBucket(a, interval, b, t);
      } else {
        BucketMonotone(a.start, a.end);
        SpentNone(front, l, b, interval, a.start);
        AcrossBuckets(a, interval);
      }
    }
  }

  lemma WithinBucket(a: Add, interval: nat, b: int, t: int)
    requires Honest(a, interval) && Bucket(a.start) == b == Bucket(a.end) && a.end <= t
    ensures (a.start - b) / 1000 + a.covered <= (t - b) / 1000
  {
    assert a.covered == (a.end - a.start) / 1000;
  }

  lemma AcrossBuckets(a: Add, interval: nat)
    requires Honest(a, interval) && Bucket(a.start) != Bucket(a.end)
    ensures a.covered <= interval * 1_000_000
  {}

  /** A lifetime's last contribution ends last. */
  lemma LastEnds(adds: seq<Add>, interval: nat)
    requires Chained(adds, interval) && adds != []
    ensures EndedBy(adds, adds[|adds| - 1].lifetime, adds[|adds| - 1].end)
  {
    var a := adds[|adds| - 1];
    assert Honest(a, interval);
    forall c | c in adds && c.lifetime == a.lifetime ensures c.end <= a.end {
      var i :| 0 <= i < |adds| && adds[i] == c;
    }
  }

  /** One lifetime covers less than a minute plus the sample interval in any bucket. */
  lemma {:induction false} MinuteBound(adds: seq<Add>, l: Lifetime, b: int, interval: nat)
    requires Chained(adds, interval)
    ensures Spent(adds, l, b) < MINUTE_USEC + interval * 1_000_000
    decreases |adds|
  {
    if adds != [] {
      var a := adds[|adds| - 1];
      ChainedFront(adds, interval);
      if a.lifetime == l && a.key.bucket == b {
        assert Honest(a, interval);
        LastEnds(adds, interval);
        SpentBounded(adds, l, b, interval, a.end);
        BucketFacts(a.end);
      } else {
        MinuteBound(adds[..|adds| - 1], l, b, interval);
      }
    }
  }

  lemma Distribute(j: nat, k: nat, n: nat)
    ensures j * n + k * n == (j + k) * n
  {}

  // ---------------------------------------------------------------- what an aggregate sums up

  lemma {:induction false} SpentByMost(adds: seq<Add>, key: Key, l: Lifetime)
    ensures SpentBy(adds, key, {l}) <= Spent(adds, l, key.bucket)
  {
    if adds != [] {
      SpentByMost(adds[..|adds| - 1], key, l);
    }
  }

  lemma {:induction false} SpentBySplit(adds: seq<Add>, key: Key, who: set<Lifetime>, l: Lifetime)
    requires l in who
    ensures SpentBy(adds, key, who) == SpentBy(adds, key, who - {l}) + SpentBy(adds, key, {l})
  {
    if adds != [] {
      SpentBySplit(adds[..|adds| - 1], key, who, l);
    }
  }

  lemma {:induction false} SpentByNobody(adds: seq<Add>, key: Key)
    ensures SpentBy(adds, key, {}) == 0
  {
    if adds != [] {
      SpentByNobody(adds[..|adds| - 1], key);
    }
  }

  /** If no lifetime spends more than `most` in the bucket, so many lifetimes spend at most that many times it. */
  lemma {:induction false} SpentByBounded(adds: seq<Add>, key: Key, who: set<Lifetime>, most: nat)
    requires forall l :: l in who ==> Spent(adds, l, key.bucket) <= most
    ensures SpentBy(adds, key, who) <= most * |who|
    decreases |who|
  {
    hide Spent;
    hide SpentBy;
    if who == {} {
      SpentByNobody(adds, key);
    } else {
      var l :| l in who;
      SpentBySplit(adds, key, who, l);
      SpentByMost(adds, key, l);
      OneFewer(who, l);
      SpentByBounded(adds, key, who - {l}, most);
      Distribute(|who - {l}|, 1, most);
    }
  }

  lemma OneFewer(who: set<Lifetime>, l: Lifetime)
    requires l in who
    ensures |who - {l}| + 1 == |who|
  {}

  /** The sum of one counter over the contributions to `key`. */
  ghost function Counted(adds: seq<Add>, key: Key, c: Counter): nat {
    if adds == [] then 0
    else
      var a := adds[|adds| - 1];
      Counted(adds[..|adds| - 1], key, c) + (if a.key == key then ValueAt(a.values, c) else 0)
  }

  ghost function Contributors(adds: seq<Add>, key: Key): set<Lifetime> { set a | a in adds && a.key == key :: a.lifetime }

  lemma ContributorsMore(adds: seq<Add>, a: Add, key: Key)
    ensures Contributors(adds + [a], key) == Contributors(adds, key) + (if a.key == key then {a.lifetime} else {})
  {
    var all := adds + [a];
    assert all[|adds|] == a;
    assert forall c :: c in all <==> c in adds || c == a;
    forall l | l in Contributors(adds, key) ensures l in Contributors(all, key) {
      var c :| c in adds && c.key == key && c.lifetime == l;
      assert c in all;
    }
    if a.key == key {
      assert a in all;
    }
  }

  /** An aggregate's totals are sums over exactly its contributions. */
  lemma {:induction false} TotalsMeaning(adds: seq<Add>, key: Key)
    ensures Totals(adds, key).contributors == Contributors(adds, key)
    ensures Totals(adds, key).covered == SpentBy(adds, key, Contributors(adds, key))
    ensures Contributors(adds, key) != {} ==> Totals(adds, key).samples > 0
  {
    if adds != [] {
      hide Contributors;
      hide Merge;
      var front, a := adds[..|adds| - 1], adds[|adds| - 1];
      assert adds == front + [a];
      ContributorsMore(front, a, key);
      TotalsMeaning(front, key);
      SpentByWider(front, key, Contributors(adds, key));
    } else {
      assert Contributors(adds, key) == {};
    }
  }

  lemma {:induction false} TotalsCounted(adds: seq<Add>, key: Key, c: Counter)
    ensures ValueAt(Totals(adds, key).values, c) == Counted(adds, key, c)
  {
    if adds != [] {
      TotalsCounted(adds[..|adds| - 1], key, c);
    }
  }

  lemma {:induction false} SpentByWider(adds: seq<Add>, key: Key, who: set<Lifetime>)
    requires Contributors(adds, key) <= who
    ensures SpentBy(adds, key, who) == SpentBy(adds, key, Contributors(adds, key))
  {
    SpentBySame(adds, key, who, Contributors(adds, key));
  }

  lemma {:induction false} SpentBySame(adds: seq<Add>, key: Key, who: set<Lifetime>, some: set<Lifetime>)
    requires forall a :: a in adds && a.key == key ==> a.lifetime in who && a.lifetime in some
    ensures SpentBy(adds, key, who) == SpentBy(adds, key, some)
  {
    if adds != [] {
      SpentBySame(adds[..|adds| - 1], key, who, some);
    }
  }

  lemma {:induction false} TotalsMore(adds: seq<Add>, a: Add, key: Key)
    ensures Totals(adds + [a], key) == if a.key == key then Absorb(Totals(adds, key), a) else Totals(adds, key)
  {
    assert (adds + [a])[..|adds|] == adds;
  }
}
