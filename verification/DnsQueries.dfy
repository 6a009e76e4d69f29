/** Pending DNS queries: registration, expiry from the head of a queue, and matching of responses, over whole runs. */
module DnsQueries {
  import opened Text
  import opened Sorting
  import opened DnsCodes
  import opened DnsCache
  import Counting

  datatype QueryKey = QueryKey(cgroup: nat, overTcp: bool, resolver: seq<byte>, transaction: nat, name: Name, queryType: QueryType)

  datatype Query = Query(createdAt: nat, process: nat)

  datatype Queries = Queries(pending: map<QueryKey, Query>, order: seq<QueryKey>, max: nat, timeout: nat)

  function Age(q: Query, now: nat): nat { if now >= q.createdAt then now - q.createdAt else 0 }

  /** `expire_pending`: drops queue heads that are gone or timed out, and stops at the first young one. */
  function Expire(s: Queries, now: nat): Queries
    decreases |s.order|
  {
    if s.order == [] then s
    else
      var k := s.order[0];
      if k !in s.pending then Expire(s.(order := s.order[1..]), now)
      else if Age(s.pending[k], now) < s.timeout then s
      else Expire(s.(order := s.order[1..], pending := s.pending - {k}), now)
  }

  function Register(s: Queries, k: QueryKey, process: nat, now: nat): Queries {
    var e := Expire(s, now);
    if |e.pending| >= e.max then e else e.(pending := e.pending[k := Query(now, process)], order := e.order + [k])
  }

  function Take(s: Queries, k: QueryKey, now: nat): Queries {
    var e := Expire(s, now); e.(pending := e.pending - {k})
  }

  /** Every pending query can still be expired, and there are at most `max` of them. */
  ghost predicate Queued(s: Queries) {
    (forall k :: k in s.pending ==> k in s.order) && |s.pending| <= s.max
  }

  lemma {:induction false} ExpireQueued(s: Queries, now: nat)
    requires Queued(s)
    ensures Queued(Expire(s, now)) && Expire(s, now).pending.Keys <= s.pending.Keys
    ensures forall k :: k in Expire(s, now).pending ==> Expire(s, now).pending[k] == s.pending[k]
    decreases |s.order|
  {
    if s.order != [] {
      var k, rest := s.order[0], s.order[1..];
      assert forall x :: x in s.order <==> x == k || x in rest;
      if k !in s.pending {
        ExpireQueued(s.(order := rest), now);
      } else if Age(s.pending[k], now) >= s.timeout {
        assert (s.pending - {k}).Keys == s.pending.Keys - {k};
        ExpireQueued(s.(order := rest, pending := s.pending - {k}), now);
      }
    }
  }

  /** The last successful registration of each key that no response has answered since. */
  type Open = map<QueryKey, Query>

  ghost predicate Faithful(s: Queries, open: Open) {
    Queued(s) && forall k :: k in s.pending ==> k in open && open[k] == s.pending[k]
  }

  lemma RegisterFaithful(s: Queries, open: Open, k: QueryKey, process: nat, now: nat)
    requires Faithful(s, open)
    ensures var r := Register(s, k, process, now);
            Faithful(r, if k in r.pending && r.pending[k] == Query(now, process) then open[k := Query(now, process)] else open)
  {
    ExpireQueued(s, now);
    var e := Expire(s, now);
    assert |e.pending[k := Query(now, process)]| <= |e.pending| + 1;
  }

  /** A response is matched to the process of the latest unanswered registration of its key, and to no other. */
  lemma {:induction false} TakeFaithful(s: Queries, open: Open, k: QueryKey, now: nat)
    requires Faithful(s, open)
    ensures Faithful(Take(s, k, now), open - {k}) && k !in Take(s, k, now).pending
    ensures k in Expire(s, now).pending ==> k in open && Expire(s, now).pending[k] == open[k]
  {
    ExpireQueued(s, now);
    var e := Expire(s, now);
    assert (e.pending - {k}).Keys == e.pending.Keys - {k};
    Counting.SubsetSize(e.pending.Keys - {k}, e.pending.Keys);
  }

  /** The time is up once the timeout has passed since the registration; with no timeout at all it always is. */
  predicate Over(q: Query, timeout: nat, now: nat) { timeout == 0 || now >= q.createdAt + timeout }

  predicate Young(s: Queries, k: QueryKey, now: nat) { k in s.pending && !Over(s.pending[k], s.timeout, now) }

  predicate TimedOut(s: Queries, k: QueryKey, now: nat) { k in s.pending && Over(s.pending[k], s.timeout, now) }

  /** How many queue heads expiry passes: all before the first young query. */
  function Passed(s: Queries, now: nat): (p: nat)
    ensures p <= |s.order| && (forall i :: 0 <= i < p ==> !Young(s, s.order[i], now)) && (p < |s.order| ==> Young(s, s.order[p], now))
    decreases |s.order|
  {
    if s.order == [] || Young(s, s.order[0], now) then 0 else 1 + Passed(s.(order := s.order[1..]), now)
  }

  lemma {:induction false} PassedWithout(s: Queries, now: nat, k: QueryKey)
    requires !Young(s, k, now)
    ensures Passed(s.(pending := s.pending - {k}), now) == Passed(s, now)
    decreases |s.order|
  {
    if s.order != [] {
      PassedWithout(s.(order := s.order[1..]), now, k);
    }
  }

  /** Expiry drops the timed-out queries among the heads it passes, and no others. */
  lemma {:induction false} ExpireIs(s: Queries, now: nat, k: QueryKey)
    ensures k in Expire(s, now).pending <==> k in s.pending && !(TimedOut(s, k, now) && k in s.order[..Passed(s, now)])
    decreases |s.order|
  {
    if s.order != [] && !Young(s, s.order[0], now) {
      var head, rest, p := s.order[0], s.(order := s.order[1..]), Passed(s, now);
      assert s.order[..p] == [head] + rest.order[..p - 1];
      if head !in s.pending {
        ExpireIs(rest, now, k);
      } else {
        var fewer := rest.(pending := s.pending - {head});
        PassedWithout(rest, now, head);
        ExpireIs(fewer, now, k);
      }
    }
  }

  /** Some timed-out query stands only behind a young one. */
  ghost predicate Shielded(s: Queries, now: nat) {
    exists i, k :: 0 <= i < |s.order| && Young(s, s.order[i], now) && TimedOut(s, k, now) && k !in s.order[..i]
  }

  ghost predicate ExpiresExactly(s: Queries, now: nat) {
    forall k :: k in s.pending ==> (k in Expire(s, now).pending <==> Young(s, k, now))
  }

  /** Exactly the timed-out queries expire if and only if none of them stands only behind a young one. */
  lemma ExpireExactlyUnlessShielded(s: Queries, now: nat)
    requires Queued(s)
    ensures ExpiresExactly(s, now) <==> !Shielded(s, now)
  {
    hide Expire;
    var p := Passed(s, now);
    forall k | k in s.pending ensures k in Expire(s, now).pending <==> !(TimedOut(s, k, now) && k in s.order[..p]) {
      ExpireIs(s, now, k);
    }
    if Shielded(s, now) {
      var i, k :| 0 <= i < |s.order| && Young(s, s.order[i], now) && TimedOut(s, k, now) && k !in s.order[..i];
      assert p <= i;
      assert forall x :: x in s.order[..p] ==> x in s.order[..i];
      assert k in Expire(s, now).pending;
    } else {
      forall k | TimedOut(s, k, now) ensures k in s.order[..p] {
        if p == |s.order| {
          assert s.order[..p] == s.order;
        }
      }
    }
  }

  /** The pending keys stand in the queue in the order of their registration. */
  ghost predicate Aged(pending: map<QueryKey, Query>, order: seq<QueryKey>) {
    forall i, j :: 0 <= i < j < |order| && order[i] in pending && order[j] in pending
                   ==> pending[order[i]].createdAt <= pending[order[j]].createdAt
  }

  ghost predicate InOrder(s: Queries) { Queued(s) && Distinct(s.order) && Aged(s.pending, s.order) }

  lemma DropQueued(s: Queries)
    requires Queued(s) && s.order != []
    ensures s.order[0] !in s.pending ==> Queued(s.(order := s.order[1..]))
    ensures Queued(s.(order := s.order[1..], pending := s.pending - {s.order[0]}))
  {
    var k, rest, fewer := s.order[0], s.order[1..], s.pending - {s.order[0]};
    assert forall x :: x in s.order <==> x == k || x in rest;
    assert fewer.Keys == s.pending.Keys - {k};
    Counting.SubsetSize(fewer.Keys, s.pending.Keys);
    assert |fewer| <= |s.pending|;
  }

  lemma DropAged(pending: map<QueryKey, Query>, order: seq<QueryKey>)
    requires Aged(pending, order) && Distinct(order) && order != []
    ensures order[0] !in order[1..] && Distinct(order[1..])
    ensures Aged(pending, order[1..]) && Aged(pending - {order[0]}, order[1..])
  {
    var rest := order[1..];
    assert forall i :: 0 <= i < |rest| ==> rest[i] == order[i + 1];
  }

  lemma DropHead(s: Queries)
    requires InOrder(s) && s.order != []
    ensures s.order[0] !in s.order[1..]
    ensures s.order[0] !in s.pending ==> InOrder(s.(order := s.order[1..]))
    ensures InOrder(s.(order := s.order[1..], pending := s.pending - {s.order[0]}))
  {
    hide Queued;
    hide Distinct;
    hide Aged;
    DropQueued(s);
    DropAged(s.pending, s.order);
  }

  lemma EmptyQueue(s: Queries)
    requires InOrder(s) && s.order == []
    ensures s.pending == map[]
  {
    assert s.pending.Keys == {};
  }

  lemma HeadIsOldest(s: Queries, x: QueryKey)
    requires InOrder(s) && s.order != [] && s.order[0] in s.pending && x in s.pending
    ensures s.pending[s.order[0]].createdAt <= s.pending[x].createdAt
  {
    var i :| 0 <= i < |s.order| && s.order[i] == x;
  }

  /** While no key is registered again before it has left the queue, exactly the queries that have timed out expire. */
  lemma {:induction false} ExpireExact(s: Queries, now: nat)
    requires InOrder(s)
    ensures forall k :: k in Expire(s, now).pending <==> k in s.pending && !Over(s.pending[k], s.timeout, now)
    ensures InOrder(Expire(s, now))
    decreases |s.order|
  {
    hide InOrder;
    if s.order == [] {
      EmptyQueue(s);
    } else {
      var k := s.order[0];
      DropHead(s);
      if k !in s.pending {
        ExpireExact(s.(order := s.order[1..]), now);
      } else if Age(s.pending[k], now) < s.timeout {
        forall x | x in s.pending ensures !Over(s.pending[x], s.timeout, now) {
          HeadIsOldest(s, x);
        }
      } else {
        ExpireExact(s.(order := s.order[1..], pending := s.pending - {k}), now);
      }
    }
  }

  lemma AppendInOrder(e: Queries, k: QueryKey, process: nat, now: nat)
    requires InOrder(e) && k !in e.order && |e.pending| < e.max && forall x :: x in e.pending ==> e.pending[x].createdAt <= now
    ensures InOrder(e.(pending := e.pending[k := Query(now, process)], order := e.order + [k]))
  {
    assert k !in e.pending;
  }

  lemma {:induction false} RegisterInOrder(s: Queries, k: QueryKey, process: nat, now: nat)
    requires InOrder(s) && k !in Expire(s, now).order && forall x :: x in s.pending ==> s.pending[x].createdAt <= now
    ensures InOrder(Register(s, k, process, now))
  {
    ExpireExact(s, now);
    ExpireQueued(s, now);
    hide InOrder;
    hide Expire;
    var e := Expire(s, now);
    if |e.pending| < e.max {
      assert forall x :: x in e.pending ==> e.pending[x] == s.pending[x];
      AppendInOrder(e, k, process, now);
    }
  }

  lemma TakeInOrder(s: Queries, k: QueryKey, now: nat)
    requires InOrder(s)
    ensures InOrder(Take(s, k, now))
  {
    hide InOrder;
    ExpireExact(s, now);
    var e := Expire(s, now);
    RemoveInOrder(e, k);
  }

  lemma RemoveInOrder(e: Queries, k: QueryKey)
    requires InOrder(e)
    ensures InOrder(e.(pending := e.pending - {k}))
  {
    var fewer := e.pending - {k};
    assert fewer.Keys == e.pending.Keys - {k};
    Counting.SubsetSize(fewer.Keys, e.pending.Keys);
    assert |fewer| == |fewer.Keys| <= |e.pending.Keys| == |e.pending|;
  }

  // ---------------------------------------------------------------- runs against a reference

  datatype Op = Registered(key: QueryKey, process: nat, at: nat) | Answered(key: QueryKey, at: nat)

  function Step(s: Queries, op: Op): Queries {
    match op
    case Registered(k, process, at) => Register(s, k, process, at)
    case Answered(k, at) => Take(s, k, at)
  }

  function Run(s: Queries, ops: seq<Op>): Queries
    decreases |ops|
  {
    if ops == [] then s else Run(Step(s, ops[0]), ops[1..])
  }

  /** The open registrations that have not timed out: no queue, no lazy expiry. */
  function Alive(open: Open, timeout: nat, now: nat): Open {
    map k | k in open && !Over(open[k], timeout, now) :: open[k]
  }

  /** The reference: the latest taken registration of each key that is neither answered nor timed out. */
  function Refer(open: Open, max: nat, timeout: nat, op: Op): Open {
    var alive := Alive(open, timeout, op.at);
    match op
    case Registered(k, process, at) => if |alive| >= max then alive else alive[k := Query(at, process)]
    case Answered(k, at) => alive - {k}
  }

  function ReferAll(open: Open, max: nat, timeout: nat, ops: seq<Op>): Open
    decreases |ops|
  {
    if ops == [] then open else ReferAll(Refer(open, max, timeout, ops[0]), max, timeout, ops[1..])
  }

  /** Times do not go back, and no key is registered while it is still queued. */
  ghost predicate Fresh(s: Queries, ops: seq<Op>, from: nat)
    decreases |ops|
  {
    ops == [] ||
    (&& from <= ops[0].at && (ops[0].Registered? ==> ops[0].key !in Expire(s, ops[0].at).order)
     && Fresh(Step(s, ops[0]), ops[1..], ops[0].at))
  }

  ghost predicate Kept(s: Queries, last: nat) {
    InOrder(s) && forall k :: k in s.pending ==> s.pending[k].createdAt <= last
  }

  lemma {:induction false} ExpireIsAlive(s: Queries, now: nat)
    requires InOrder(s)
    ensures Expire(s, now).pending == Alive(s.pending, s.timeout, now)
  {
    ExpireExact(s, now);
    ExpireQueued(s, now);
    hide Expire;
    var e := Expire(s, now).pending;
    assert forall k :: k in e <==> k in Alive(s.pending, s.timeout, now);
  }

  lemma {:induction false} ExpireLimits(s: Queries, now: nat)
    ensures Expire(s, now).max == s.max && Expire(s, now).timeout == s.timeout
    decreases |s.order|
  {
    if s.order != [] {
      ExpireLimits(s.(order := s.order[1..]), now);
      ExpireLimits(s.(order := s.order[1..], pending := s.pending - {s.order[0]}), now);
    }
  }

  lemma {:induction false} StepRefers(s: Queries, op: Op, last: nat)
    requires Kept(s, last) && last <= op.at && (op.Registered? ==> op.key !in Expire(s, op.at).order)
    ensures var t := Step(s, op);
            Kept(t, op.at) && t.pending == Refer(s.pending, s.max, s.timeout, op) && t.max == s.max && t.timeout == s.timeout
  {
    ExpireIsAlive(s, op.at);
    ExpireLimits(s, op.at);
    match op
    case Registered(k, process, at) => RegisterInOrder(s, k, process, at);
    case Answered(k, at) => TakeInOrder(s, k, at);
    hide InOrder;
    hide Expire;
  }

  /**
   Over every run in which no key is registered while still queued, the pending queries are those of the reference: at
   any later time exactly the timed-out ones expire, and a response is matched to the process of the latest open
   registration of its key, or to none when there is none alive.
   */
  lemma {:induction false} RunRefers(s: Queries, ops: seq<Op>, last: nat)
    requires Kept(s, last) && Fresh(s, ops, last)
    ensures var t, open := Run(s, ops), ReferAll(s.pending, s.max, s.timeout, ops);
            t.pending == open && forall now :: Expire(t, now).pending == Alive(open, s.timeout, now)
    decreases |ops|
  {
    hide Kept;
    if ops == [] {
      forall now ensures Expire(s, now).pending == Alive(s.pending, s.timeout, now) {
        KeptInOrder(s, last);
        ExpireIsAlive(s, now);
      }
    } else {
      hide Expire;
      hide Refer;
      hide Step;
      StepRefers(s, ops[0], last);
      RunRefers(Step(s, ops[0]), ops[1..], ops[0].at);
    }
  }

  lemma KeptInOrder(s: Queries, last: nat)
    requires Kept(s, last)
    ensures InOrder(s)
  {}

  /** In particular from an empty store. */
  lemma {:induction false} MatchesReference(max: nat, timeout: nat, ops: seq<Op>, now: nat)
    requires Fresh(Queries(map[], [], max, timeout), ops, 0)
    ensures Expire(Run(Queries(map[], [], max, timeout), ops), now).pending == Alive(ReferAll(map[], max, timeout, ops), timeout, now)
  {
    RunRefers(Queries(map[], [], max, timeout), ops, 0);
  }

  /** Registering a queued key again makes the head look young, and the query behind it outlives the timeout. */
  lemma ReRegisteringDelaysExpiry()
    ensures var a, b := QueryKey(1, false, [], 1, [0], A), QueryKey(1, false, [], 2, [0], A);
            var s := Register(Register(Register(Queries(map[], [], 4, 5), a, 0, 0), b, 0, 1), a, 0, 4);
            b in Expire(s, 7).pending && s.pending[b].createdAt == 1 && 7 - 1 >= s.timeout
  {
    var a, b := QueryKey(1, false, [], 1, [0], A), QueryKey(1, false, [], 2, [0], A);
    var r := Register(Queries(map[], [], 4, 5), a, 0, 0);
    assert r == Queries(map[a := Query(0, 0)], [a], 4, 5);
    assert Expire(r, 1) == r;
    var t := Register(r, b, 0, 1);
    assert t == Queries(map[a := Query(0, 0), b := Query(1, 0)], [a, b], 4, 5);
    assert Expire(t, 4) == t;
    var s := Register(t, a, 0, 4);
    assert s == Queries(map[a := Query(4, 0), b := Query(1, 0)], [a, b, a], 4, 5);
    assert s.order[0] == a && Expire(s, 7) == s;
  }
}
