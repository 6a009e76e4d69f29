/** Whole runs of the DNS address cache against its reference, and the object that holds the cache and the pending queries. */
module DnsState {
  import opened Text
  import opened Sorting
  import opened DnsCache
  import opened DnsQueries

  // ---------------------------------------------------------------- runs of the cache

  datatype Op = Correlated(cgroup: nat, name: Name, answers: seq<Answer>, at: int) | Asked(slot: Slot, at: int)

  datatype Both = Both(slots: Slots, facts: Facts)

  function Step(s: Both, config: Config, op: Op): Both {
    match op
    case Correlated(cgroup, name, answers, at) =>
      Both(LearnAll(s.slots, config, cgroup, name, answers, at), RecordAll(s.facts, config, cgroup, name, answers, at))
    case Asked(slot, at) => s.(slots := AfterContext(s.slots, slot, at))
  }

  function Run(s: Both, config: Config, ops: seq<Op>): Both
    decreases |ops|
  {
    if ops == [] then s else Run(Step(s, config, ops[0]), config, ops[1..])
  }

  /** Wall-clock times do not go back. */
  ghost predicate Ordered(ops: seq<Op>, from: int) {
    (forall i :: 0 <= i < |ops| ==> from <= ops[i].at) && (forall i, j :: 0 <= i < j < |ops| ==> ops[i].at <= ops[j].at)
  }

  lemma AskRefines(slots: Slots, t: Facts, config: Config, slot: Slot, now: int)
    requires Refines(slots, t, config, now) && config.maxNames <= MAX_CONTEXT_NAMES
    ensures Refines(AfterContext(slots, slot, now), t, config, now)
    ensures Answers(ContextOf(slots, slot, now), t, slot, now)
  {
    hide SlotRefines;
    hide Answers;
    hide Tidy;
    assert SlotRefines(SlotOf(slots, slot), t, slot, now);
    ContextSlot(SlotOf(slots, slot), t, config, slot, now);
    var r := AfterContext(slots, slot, now);
    forall other ensures SlotRefines(SlotOf(r, other), t, other, now) && |SlotOf(r, other)| <= config.maxNames {
      assert SlotRefines(SlotOf(slots, other), t, other, now);
    }
  }

  lemma StepRefines(s: Both, config: Config, op: Op, now: int)
    requires Refines(s.slots, s.facts, config, now) && now <= op.at && config.maxNames <= MAX_CONTEXT_NAMES
    ensures var r := Step(s, config, op); Refines(r.slots, r.facts, config, op.at)
  {
    hide Refines;
    hide LearnAll;
    hide RecordAll;
    hide AfterContext;
    LaterRefines(s.slots, s.facts, config, now, op.at);
    match op
    case Correlated(cgroup, name, answers, at) => LearnAllRefines(s.slots, s.facts, config, cgroup, name, answers, at);
    case Asked(slot, at) => AskRefines(s.slots, s.facts, config, slot, at);
  }

  lemma {:induction false} RunRefines(s: Both, config: Config, ops: seq<Op>, now: int) returns (last: int)
    requires Refines(s.slots, s.facts, config, now) && Ordered(ops, now) && config.maxNames <= MAX_CONTEXT_NAMES
    ensures var r := Run(s, config, ops); Refines(r.slots, r.facts, config, last)
    ensures now <= last && (forall i :: 0 <= i < |ops| ==> ops[i].at <= last) && (ops == [] ==> last == now)
    ensures ops != [] ==> last == ops[|ops| - 1].at
    decreases |ops|
  {
    hide Refines;
    hide Step;
    last := now;
    if ops != [] {
      StepRefines(s, config, ops[0], now);
      var rest := ops[1..];
      assert forall i :: 0 <= i < |rest| ==> rest[i] == ops[i + 1];
      last := RunRefines(Step(s, config, ops[0]), config, rest, ops[0].at);
    }
  }

  /**
   After any run in time order, asking for a context answers as the reference does: it is present exactly when some
   name learnt for that cgroup and address is still live, it lists all of those and no others, sorted and distinct,
   and building it never fails.
   */
  lemma {:induction false} ContextMatchesReference(config: Config, ops: seq<Op>, from: int, slot: Slot, now: int)
    requires 1 <= config.maxNames <= MAX_CONTEXT_NAMES && Ordered(ops + [Asked(slot, now)], from)
    ensures var s := Run(Both(map[], map[]), config, ops); Answers(ContextOf(s.slots, slot, now), s.facts, slot, now)
  {
    var all := ops + [Asked(slot, now)];
    assert forall i :: 0 <= i < |ops| ==> all[i] == ops[i];
    assert all[|ops|] == Asked(slot, now);
    var s := Both(map[], map[]);
    assert Refines(s.slots, s.facts, config, from);
    var last := RunRefines(s, config, ops, from);
    var r := Run(s, config, ops);
    LaterRefines(r.slots, r.facts, config, last, now);
    AskRefines(r.slots, r.facts, config, slot, now);
  }

  // ---------------------------------------------------------------- the object

  class DnsState {
    var pending: map<QueryKey, Query>
    var pendingOrder: seq<QueryKey>
    var addresses: Slots
    const maxPending: nat
    const config: Config
    const timeout: nat

    function View(): Queries
      reads this
    {
      Queries(pending, pendingOrder, maxPending, timeout)
    }

    constructor (maxPending: nat, config: Config, timeout: nat)
      ensures View() == Queries(map[], [], maxPending, timeout) && addresses == map[] && this.config == config
    {
      this.maxPending, this.config, this.timeout := maxPending, config, timeout;
      pending, pendingOrder, addresses := map[], [], map[];
    }

    method ExpirePending(now: nat)
      modifies this`pending, this`pendingOrder
      ensures View() == Expire(old(View()), now)
    {
      while pendingOrder != []
        invariant Expire(View(), now) == Expire(old(View()), now)
        decreases |pendingOrder|
      {
        var k := pendingOrder[0];
        if k !in pending {
          pendingOrder := pendingOrder[1..];
        } else {
          if Age(pending[k], now) < timeout {
            break;
          }
          pending := pending - {k};
          pendingOrder := pendingOrder[1..];
        }
      }
    }

    method RegisterQuery(k: QueryKey, process: nat, now: nat) returns (ok: bool)
      modifies this`pending, this`pendingOrder
      ensures View() == Register(old(View()), k, process, now)
      ensures ok <==> |Expire(old(View()), now).pending| < maxPending
    {
      ExpirePending(now);
      if |pending| >= maxPending {
        return false;
      }
      pending := pending[k := Query(now, process)];
      pendingOrder := pendingOrder + [k];
      return true;
    }

    /** The loop over the answers, each of which rewrites one slot. */
    method LearnAnswers(cgroup: nat, name: Name, answers: seq<Answer>, at: int)
      modifies this`addresses
      ensures addresses == LearnAll(old(addresses), config, cgroup, name, answers, at)
    {
      hide LearnAll;
      hide Retain;
      LearnNone(addresses, config, cgroup, name, answers, at);
      for i := 0 to |answers|
        invariant addresses == LearnAll(old(addresses), config, cgroup, name, answers[..i], at)
      {
        LearnMore(old(addresses), config, cgroup, name, answers, at, i);
        var slot := (cgroup, answers[i].address);
        var entry := if slot in addresses then addresses[slot] else [];
        entry := Retain(entry, LiveOther(at, name));
        if |entry| < config.maxNames {
          entry := entry + [Cached(name, at, at + Ttl(config, answers[i].ttl) * SECOND)];
        }
        addresses := addresses[slot := entry];
      }
      assert answers[..|answers|] == answers;
    }

    /** Nothing is learnt, and nothing returned, for a response that matches no pending query. */
    method CorrelateResponse(k: QueryKey, answers: seq<Answer>, now: nat, at: int)
      returns (process: Option<nat>)
      modifies this
      ensures View() == Take(old(View()), k, now)
      ensures process == if k in Expire(old(View()), now).pending then Some(Expire(old(View()), now).pending[k].process) else None
      ensures addresses == if process.Some? then LearnAll(old(addresses), config, k.cgroup, k.name, answers, at) else old(addresses)
    {
      ExpirePending(now);
      if k !in pending {
        assert pending - {k} == pending;
        return None;
      }
      var query := pending[k];
      pending := pending - {k};
      LearnAnswers(k.cgroup, k.name, answers, at);
      return Some(query.process);
    }

    method ContextFor(slot: Slot, now: int) returns (context: Option<Context>)
      modifies this`addresses
      ensures context == ContextOf(old(addresses), slot, now)
      ensures addresses == AfterContext(old(addresses), slot, now)
    {
      if slot !in addresses {
        NothingTidy(now);
        return None;
      }
      var values := Retain(addresses[slot], LiveAt(now));
      if values == [] {
        addresses := addresses - {slot};
        return None;
      }
      var sorted := Sort(values, NameLeq);
      SortElements(values, NameLeq);
      DedupKeepsSome(sorted);
      values := DedupByName(sorted);
      addresses := addresses[slot := values];
      return NewContext(Names(values), Latest(values), Earliest(values));
    }
  }

  lemma {:induction false} LearnNone(slots: Slots, config: Config, cgroup: nat, name: Name, answers: seq<Answer>, at: int)
    ensures LearnAll(slots, config, cgroup, name, answers[..0], at) == slots
  {}

  lemma {:induction false} LearnMore(slots: Slots, config: Config, cgroup: nat, name: Name, answers: seq<Answer>, at: int, i: nat)
    requires i < |answers|
    ensures LearnAll(slots, config, cgroup, name, answers[..i + 1], at)
         == Learn(LearnAll(slots, config, cgroup, name, answers[..i], at), config, cgroup, name, answers[i], at)
  {
    assert answers[..i + 1][..i] == answers[..i];
  }

  lemma NothingTidy(now: int)
    ensures Tidy([], now) == []
  {}

  lemma {:induction false} DedupKeepsSome(s: seq<Cached>)
    requires s != []
    ensures DedupByName(s) != []
    decreases |s|
  {
    if |s| > 1 && s[0].name == s[1].name {
      DedupKeepsSome([s[0]] + s[2..]);
    }
  }
}
