/** What a context holds in terms of the correlated responses before it, over whole runs. */
module DnsCacheHistory {
  import opened Text
  import opened Sorting
  import opened DnsCache
  import S = DnsState

  /** One answer of one correlated response. */
  datatype Learnt = Learnt(slot: Slot, name: Name, ttl: nat, at: int)

  function FromAnswers(cgroup: nat, name: Name, answers: seq<Answer>, at: int): seq<Learnt> {
    if answers == [] then []
    else
      var last := answers[|answers| - 1];
      FromAnswers(cgroup, name, answers[..|answers| - 1], at) + [Learnt((cgroup, last.address), name, last.ttl, at)]
  }

  /** The answers of all correlated responses, in order. */
  function History(ops: seq<S.Op>): seq<Learnt> {
    if ops == [] then []
    else
      (match ops[0]
       case Correlated(cgroup, name, answers, at) => FromAnswers(cgroup, name, answers, at)
       case Asked(_, _) => []) + History(ops[1..])
  }

  predicate About(l: Learnt, slot: Slot, name: Name) { l.slot == slot && l.name == name }

  /** Answer `j` is the latest about this name at this slot. */
  ghost predicate IsLatest(h: seq<Learnt>, j: nat, slot: Slot, name: Name) {
    j < |h| && About(h[j], slot, name) && forall k :: j < k < |h| ==> !About(h[k], slot, name)
  }

  /** Neither the answer's own time to live nor the longest allowed is over. */
  predicate Unexpired(config: Config, l: Learnt, now: int) {
    now < l.at + l.ttl * SECOND && now < l.at + config.maxTtl * SECOND
  }

  /** The name's latest answer is unexpired and found room at its slot. */
  ghost predicate Known(config: Config, h: seq<Learnt>, slot: Slot, name: Name, now: int)
    decreases |h|, 1
  {
    exists j: nat :: j < |h| && IsLatest(h, j, slot, name) && Unexpired(config, h[j], now) && HadRoom(config, h, j)
  }

  /** The other names known at the answer's slot when it came. */
  ghost function Rivals(config: Config, past: seq<Learnt>, l: Learnt): set<Name>
    decreases |past|, 2
  {
    set m | 0 <= m < |past| && past[m].name != l.name && Known(config, past, l.slot, past[m].name, l.at) :: past[m].name
  }

  ghost predicate HadRoom(config: Config, h: seq<Learnt>, j: nat)
    requires j < |h|
    decreases j, 3
  {
    |Rivals(config, h[..j], h[j])| < config.maxNames
  }

  // ---------------------------------------------------------------- the facts are the history

  ghost predicate FactsAre(config: Config, t: Facts, h: seq<Learnt>) {
    && (forall k :: k in t ==> exists j: nat :: IsLatest(h, j, k.slot, k.name))
    && (forall j: nat, slot, name :: j < |h| && IsLatest(h, j, slot, name) ==>
          && FactKey(slot, name) in t
          && t[FactKey(slot, name)] == Fact(h[j].at, Expiry(config, h[j].ttl, h[j].at), HadRoom(config, h, j)))
  }

  lemma {:induction false} KnownIsLive(config: Config, t: Facts, h: seq<Learnt>, slot: Slot, name: Name, now: int)
    requires FactsAre(config, t, h)
    ensures Known(config, h, slot, name, now) <==> LiveFact(t, slot, name, now)
  {
    hide HadRoom;
    if Known(config, h, slot, name, now) {
      var j: nat :| j < |h| && IsLatest(h, j, slot, name) && Unexpired(config, h[j], now) && HadRoom(config, h, j);
    }
    if LiveFact(t, slot, name, now) {
      var j: nat :| IsLatest(h, j, FactKey(slot, name).slot, FactKey(slot, name).name);
      assert IsLatest(h, j, slot, name);
      assert Unexpired(config, h[j], now);
    }
  }

  lemma LatestMore(h: seq<Learnt>, l: Learnt, slot: Slot, name: Name)
    ensures forall j: nat :: j < |h| ==> (IsLatest(h + [l], j, slot, name) <==> IsLatest(h, j, slot, name) && !About(l, slot, name))
    ensures IsLatest(h + [l], |h|, slot, name) <==> About(l, slot, name)
  {
    var more := h + [l];
    assert more[|h|] == l && forall k :: 0 <= k < |h| ==> more[k] == h[k];
    forall j: nat | j < |h| ensures IsLatest(more, j, slot, name) <==> IsLatest(h, j, slot, name) && !About(l, slot, name) {
      if IsLatest(more, j, slot, name) {
        assert !About(more[|h|], slot, name);
        assert forall k :: j < k < |h| ==> !About(more[k], slot, name);
      }
    }
  }

  lemma {:induction false} RoomBefore(config: Config, h: seq<Learnt>, l: Learnt, j: nat)
    requires j < |h|
    ensures HadRoom(config, h + [l], j) <==> HadRoom(config, h, j)
  {
    var more := h + [l];
    assert more[..j] == h[..j] && more[j] == h[j];
  }

  lemma {:induction false} RoomNow(config: Config, t: Facts, h: seq<Learnt>, l: Learnt)
    requires FactsAre(config, t, h)
    ensures HadRoom(config, h + [l], |h|) <==> |LiveNames(t, l.slot, l.at) - {l.name}| < config.maxNames
  {
    hide FactsAre;
    hide Known;
    var more, j := h + [l], |h|;
    assert more[..j] == h && more[j] == l;
    var rivals := Rivals(config, h, l);
    forall n ensures n in rivals <==> n in LiveNames(t, l.slot, l.at) - {l.name} {
      KnownIsLive(config, t, h, l.slot, n, l.at);
      if n in LiveNames(t, l.slot, l.at) - {l.name} {
        KnownAppears(config, h, l.slot, n, l.at);
        var m :| 0 <= m < |h| && h[m].name == n;
        assert n in rivals;
      }
      if n in rivals {
        assert FactKey(l.slot, n) in t;
        assert FactKey(l.slot, n).name == n;
      }
    }
    assert rivals == LiveNames(t, l.slot, l.at) - {l.name};
  }

  lemma {:induction false} KnownAppears(config: Config, h: seq<Learnt>, slot: Slot, name: Name, now: int)
    requires Known(config, h, slot, name, now)
    ensures exists m :: 0 <= m < |h| && h[m].name == name
  {
    var j: nat :| j < |h| && IsLatest(h, j, slot, name) && Unexpired(config, h[j], now) && HadRoom(config, h, j);
  }

  lemma RecordIs(config: Config, t: Facts, h: seq<Learnt>, l: Learnt)
    requires FactsAre(config, t, h)
    ensures FactsAre(config, Record(t, config, l.slot, l.name, l.ttl, l.at), h + [l])
  {
    hide HadRoom;
    hide IsLatest;
    var u, more := Record(t, config, l.slot, l.name, l.ttl, l.at), h + [l];
    RoomNow(config, t, h, l);
    forall k | k in u ensures exists j: nat :: IsLatest(more, j, k.slot, k.name) {
      LatestMore(h, l, k.slot, k.name);
      if About(l, k.slot, k.name) {
        assert IsLatest(more, |h|, k.slot, k.name);
      } else {
        assert k in t;
        var j: nat :| IsLatest(h, j, k.slot, k.name);
        LatestInside(h, j, k.slot, k.name);
        assert IsLatest(more, j, k.slot, k.name);
      }
    }
    forall j: nat, slot, name | j < |more| && IsLatest(more, j, slot, name)
      ensures FactKey(slot, name) in u
      ensures u[FactKey(slot, name)] == Fact(more[j].at, Expiry(config, more[j].ttl, more[j].at), HadRoom(config, more, j))
    {
      LatestMore(h, l, slot, name);
      if j < |h| {
        RoomBefore(config, h, l, j);
        assert more[j] == h[j];
      } else {
        assert more[j] == l;
      }
    }
  }

  lemma LatestInside(h: seq<Learnt>, j: nat, slot: Slot, name: Name)
    requires IsLatest(h, j, slot, name)
    ensures j < |h|
  {}

  lemma {:induction false} RecordAllIs(config: Config, t: Facts, h: seq<Learnt>, cgroup: nat, name: Name, answers: seq<Answer>, at: int)
    requires FactsAre(config, t, h)
    ensures FactsAre(config, RecordAll(t, config, cgroup, name, answers, at), h + FromAnswers(cgroup, name, answers, at))
    decreases |answers|
  {
    hide FactsAre;
    if answers == [] {
      assert h + [] == h;
    } else {
      var init, last := answers[..|answers| - 1], answers[|answers| - 1];
      var before, l := FromAnswers(cgroup, name, init, at), Learnt((cgroup, last.address), name, last.ttl, at);
      RecordAllIs(config, t, h, cgroup, name, init, at);
      RecordIs(config, RecordAll(t, config, cgroup, name, init, at), h + before, l);
      assert h + before + [l] == h + (before + [l]);
    }
  }

  lemma {:induction false} RunFacts(config: Config, s: S.Both, h: seq<Learnt>, ops: seq<S.Op>)
    requires FactsAre(config, s.facts, h)
    ensures FactsAre(config, S.Run(s, config, ops).facts, h + History(ops))
    decreases |ops|
  {
    hide FactsAre;
    if ops == [] {
      assert h + [] == h;
    } else {
      var next := S.Step(s, config, ops[0]);
      match ops[0]
      case Correlated(cgroup, name, answers, at) =>
        var more := FromAnswers(cgroup, name, answers, at);
        RecordAllIs(config, s.facts, h, cgroup, name, answers, at);
        RunFacts(config, next, h + more, ops[1..]);
        assert h + more + History(ops[1..]) == h + (more + History(ops[1..]));
      case Asked(_, _) =>
        RunFacts(config, next, h, ops[1..]);
        assert [] + History(ops[1..]) == History(ops[1..]);
    }
  }

  // ---------------------------------------------------------------- contexts

  /** The context is what the history says: the known names, sorted, observed at their latest and good until their earliest time. */
  ghost predicate Tells(config: Config, c: Option<Context>, h: seq<Learnt>, slot: Slot, now: int) {
    && (c.Some? <==> exists n :: Known(config, h, slot, n, now))
    && (c.Some? ==>
          && ValidContext(c.value) && Distinct(c.value.names) && Sorted(c.value.names, LexLeq)
          && (forall n :: n in c.value.names <==> Known(config, h, slot, n, now))
          && (forall j: nat, n :: j < |h| && IsLatest(h, j, slot, n) && Known(config, h, slot, n, now) ==>
                && h[j].at <= c.value.observedAt
                && c.value.expiresAt <= h[j].at + h[j].ttl * SECOND && c.value.expiresAt <= h[j].at + config.maxTtl * SECOND)
          && (exists j: nat, n :: j < |h| && IsLatest(h, j, slot, n) && Known(config, h, slot, n, now) && c.value.observedAt == h[j].at)
          && (exists j: nat, n :: j < |h| && IsLatest(h, j, slot, n) && Known(config, h, slot, n, now) &&
                (c.value.expiresAt == h[j].at + h[j].ttl * SECOND || c.value.expiresAt == h[j].at + config.maxTtl * SECOND)))
  }

  lemma KnownLatest(config: Config, t: Facts, h: seq<Learnt>, slot: Slot, n: Name, now: int) returns (j: nat)
    requires FactsAre(config, t, h) && n in LiveNames(t, slot, now)
    ensures j < |h| && IsLatest(h, j, slot, n) && Known(config, h, slot, n, now) && FactKey(slot, n) in t
    ensures t[FactKey(slot, n)].observedAt == h[j].at && t[FactKey(slot, n)].expiresAt == Expiry(config, h[j].ttl, h[j].at)
  {
    KnownIsLive(config, t, h, slot, n, now);
    j :| j < |h| && IsLatest(h, j, slot, n) && Unexpired(config, h[j], now) && HadRoom(config, h, j);
  }

  lemma {:induction false} AnswersTell(config: Config, c: Option<Context>, t: Facts, h: seq<Learnt>, slot: Slot, now: int)
    requires FactsAre(config, t, h) && Answers(c, t, slot, now)
    ensures Tells(config, c, h, slot, now)
  {
    hide Known;
    hide IsLatest;
    hide ValidContext;
    hide Distinct;
    hide Sorted;
    var live := LiveNames(t, slot, now);
    forall n ensures n in live <==> Known(config, h, slot, n, now) {
      KnownIsLive(config, t, h, slot, n, now);
      if LiveFact(t, slot, n, now) {
        assert FactKey(slot, n).name == n;
      }
    }
    assert live != {} <==> exists n :: Known(config, h, slot, n, now);
    if c.Some? {
      forall j: nat, n | j < |h| && IsLatest(h, j, slot, n) && Known(config, h, slot, n, now)
        ensures && h[j].at <= c.value.observedAt
                && c.value.expiresAt <= h[j].at + h[j].ttl * SECOND && c.value.expiresAt <= h[j].at + config.maxTtl * SECOND
      {
        assert n in live;
        assert t[FactKey(slot, n)] == Fact(h[j].at, Expiry(config, h[j].ttl, h[j].at), HadRoom(config, h, j));
      }
      var a :| a in live && t[FactKey(slot, a)].observedAt == c.value.observedAt;
      var b :| b in live && t[FactKey(slot, b)].expiresAt == c.value.expiresAt;
      var i := KnownLatest(config, t, h, slot, a, now);
      var j := KnownLatest(config, t, h, slot, b, now);
    }
  }

  /**
   After any run in time order, a context is decided by the correlated responses alone: a name is in it exactly when its
   latest answer for that cgroup and address found room, and neither its own time to live nor the longest allowed is over.
   */
  lemma {:induction false} ContextFromResponses(config: Config, ops: seq<S.Op>, from: int, slot: Slot, now: int)
    requires 1 <= config.maxNames <= MAX_CONTEXT_NAMES && S.Ordered(ops + [S.Asked(slot, now)], from)
    ensures Tells(config, ContextOf(S.Run(S.Both(map[], map[]), config, ops).slots, slot, now), History(ops), slot, now)
  {
    hide FactsAre;
    hide Tells;
    hide Answers;
    var s := S.Run(S.Both(map[], map[]), config, ops);
    assert FactsAre(config, map[], []) by { NoFacts(config); }
    RunFacts(config, S.Both(map[], map[]), [], ops);
    assert [] + History(ops) == History(ops);
    S.ContextMatchesReference(config, ops, from, slot, now);
    AnswersTell(config, ContextOf(s.slots, slot, now), s.facts, History(ops), slot, now);
  }

  lemma NoFacts(config: Config)
    ensures FactsAre(config, map[], [])
  {}
}
