/** The DNS address cache: the names recently resolved to each address, and what they are good for. */
module DnsCache {
  import opened Text
  import opened Sorting
  import Counting

  const MAX_CONTEXT_NAMES := 8

  type Name = seq<byte>

  /** A slot is a cgroup and an address. */
  type Slot = (nat, seq<byte>)

  datatype Cached = Cached(name: Name, observedAt: int, expiresAt: int)

  datatype Answer = Answer(address: seq<byte>, ttl: nat)

  datatype Context = Context(names: seq<Name>, observedAt: int, expiresAt: int, ambiguous: bool)

  /** `DnsContext::new`. */
  function NewContext(names: seq<Name>, observedAt: int, expiresAt: int): Option<Context> {
    if names == [] || |names| > MAX_CONTEXT_NAMES || expiresAt <= observedAt then None
    else Some(Context(names, observedAt, expiresAt, |names| > 1))
  }

  /** `DnsContext::validate`. */
  predicate ValidContext(c: Context) {
    c.names != [] && |c.names| <= 8 && c.expiresAt > c.observedAt && c.ambiguous == (|c.names| > 1)
  }

  datatype Config = Config(maxNames: nat, maxTtl: nat)

  type Slots = map<Slot, seq<Cached>>

  function Retain(entry: seq<Cached>, keep: Cached -> bool): (r: seq<Cached>)
    ensures forall c :: c in r <==> c in entry && keep(c)
  {
    if entry == [] then []
    else
      assert entry == [entry[0]] + entry[1..];
      (if keep(entry[0]) then [entry[0]] else []) + Retain(entry[1..], keep)
  }

  function LiveAt(now: int): Cached -> bool { (c: Cached) => c.expiresAt > now }

  function LiveOther(now: int, name: Name): Cached -> bool { (c: Cached) => c.expiresAt > now && c.name != name }

  function Ttl(config: Config, ttl: nat): nat { if ttl <= config.maxTtl then ttl else config.maxTtl }

  function SlotOf(slots: Slots, slot: Slot): seq<Cached> { if slot in slots then slots[slot] else [] }

  /** What one answer does to its slot: expired names and the name itself go, then the name is added if there is room. */
  function LearnEntry(entry: seq<Cached>, config: Config, name: Name, ttl: nat, now: int): seq<Cached> {
    var kept := Retain(entry, LiveOther(now, name));
    if |kept| < config.maxNames then kept + [Cached(name, now, now + Ttl(config, ttl) * SECOND)] else kept
  }

  function Learn(slots: Slots, config: Config, cgroup: nat, name: Name, answer: Answer, now: int): Slots {
    slots[(cgroup, answer.address) := LearnEntry(SlotOf(slots, (cgroup, answer.address)), config, name, answer.ttl, now)]
  }

  /** The loop over the answers of a correlated response. */
  function LearnAll(slots: Slots, config: Config, cgroup: nat, name: Name, answers: seq<Answer>, now: int): Slots {
    if answers == [] then slots
    else Learn(LearnAll(slots, config, cgroup, name, answers[..|answers| - 1], now), config, cgroup, name, answers[|answers| - 1], now)
  }

  predicate NameLeq(a: Cached, b: Cached) { LexLeq(a.name, b.name) }

  /** `dedup_by` on the names: of equal neighbours the first stays. */
  function DedupByName(s: seq<Cached>): seq<Cached>
    decreases |s|
  {
    if |s| <= 1 then s else if s[0].name == s[1].name then DedupByName([s[0]] + s[2..]) else [s[0]] + DedupByName(s[1..])
  }

  function Names(s: seq<Cached>): (r: seq<Name>)
    ensures |r| == |s| && forall i :: 0 <= i < |s| ==> r[i] == s[i].name
  {
    if s == [] then [] else [s[0].name] + Names(s[1..])
  }

  function Latest(s: seq<Cached>): int
    requires s != []
  {
    if |s| == 1 then s[0].observedAt
    else if s[0].observedAt >= Latest(s[1..]) then s[0].observedAt else Latest(s[1..])
  }

  function Earliest(s: seq<Cached>): int
    requires s != []
  {
    if |s| == 1 then s[0].expiresAt
    else if s[0].expiresAt <= Earliest(s[1..]) then s[0].expiresAt else Earliest(s[1..])
  }

  /** The slot once `context_for` has dropped what expired and put the rest in order. */
  function Tidy(entry: seq<Cached>, now: int): seq<Cached> {
    DedupByName(Sort(Retain(entry, LiveAt(now)), NameLeq))
  }

  function ContextOf(slots: Slots, slot: Slot, now: int): Option<Context> {
    var tidy := Tidy(SlotOf(slots, slot), now);
    if tidy == [] then None else NewContext(Names(tidy), Latest(tidy), Earliest(tidy))
  }

  function AfterContext(slots: Slots, slot: Slot, now: int): Slots {
    if slot !in slots then slots
    else if Tidy(slots[slot], now) == [] then slots - {slot}
    else slots[slot := Tidy(slots[slot], now)]
  }

  // ---------------------------------------------------------------- the reference: one fact per cgroup, address and name

  datatype FactKey = FactKey(slot: Slot, name: Name)

  /** The latest answer for a name, and whether the slot had room for it. */
  datatype Fact = Fact(observedAt: int, expiresAt: int, admitted: bool)

  type Facts = map<FactKey, Fact>

  predicate LiveFact(t: Facts, slot: Slot, name: Name, now: int) {
    var k := FactKey(slot, name);
    k in t && t[k].admitted && t[k].expiresAt > now
  }

  function LiveNames(t: Facts, slot: Slot, now: int): set<Name> {
    set k | k in t && k.slot == slot && LiveFact(t, slot, k.name, now) :: k.name
  }

  /** The end of an answer's own time to live, or of the longest allowed, whichever comes first. */
  function Expiry(config: Config, ttl: nat, at: int): int {
    if at + ttl * SECOND <= at + config.maxTtl * SECOND then at + ttl * SECOND else at + config.maxTtl * SECOND
  }

  function Record(t: Facts, config: Config, slot: Slot, name: Name, ttl: nat, now: int): Facts {
    t[FactKey(slot, name) := Fact(now, Expiry(config, ttl, now), |LiveNames(t, slot, now) - {name}| < config.maxNames)]
  }

  function RecordAll(t: Facts, config: Config, cgroup: nat, name: Name, answers: seq<Answer>, now: int): Facts {
    if answers == [] then t
    else
      var last := answers[|answers| - 1];
      Record(RecordAll(t, config, cgroup, name, answers[..|answers| - 1], now), config, (cgroup, last.address), name, last.ttl, now)
  }

  // ---------------------------------------------------------------- refinement

  ghost predicate DistinctEntries(s: seq<Cached>) {
    forall i, j :: 0 <= i < j < |s| ==> s[i].name != s[j].name
  }

  /** A slot's cached names are facts, one each, and every fact still live is among them. */
  ghost predicate SlotRefines(entry: seq<Cached>, t: Facts, slot: Slot, now: int) {
    && DistinctEntries(entry)
    && (forall c :: c in entry ==>
          FactKey(slot, c.name) in t && t[FactKey(slot, c.name)] == Fact(c.observedAt, c.expiresAt, true) && c.observedAt <= now)
    && (forall n :: LiveFact(t, slot, n, now) ==> Has(entry, n))
  }

  ghost predicate Has(entry: seq<Cached>, n: Name) {
    exists i :: 0 <= i < |entry| && entry[i].name == n
  }

  ghost predicate Refines(slots: Slots, t: Facts, config: Config, now: int) {
    forall slot :: SlotRefines(SlotOf(slots, slot), t, slot, now) && |SlotOf(slots, slot)| <= config.maxNames
  }

  lemma LaterRefines(slots: Slots, t: Facts, config: Config, now: int, later: int)
    requires Refines(slots, t, config, now) && now <= later
    ensures Refines(slots, t, config, later)
  {
    forall slot ensures SlotRefines(SlotOf(slots, slot), t, slot, later) && |SlotOf(slots, slot)| <= config.maxNames {
      assert SlotRefines(SlotOf(slots, slot), t, slot, now);
      assert forall n :: LiveFact(t, slot, n, later) ==> LiveFact(t, slot, n, now);
    }
  }

  lemma {:induction false} RetainDistinct(entry: seq<Cached>, keep: Cached -> bool)
    requires DistinctEntries(entry)
    ensures DistinctEntries(Retain(entry, keep)) && |Retain(entry, keep)| <= |entry|
  {
    if entry != [] {
      var rest := entry[1..];
      assert forall i :: 0 <= i < |rest| ==> rest[i] == entry[i + 1];
      RetainDistinct(rest, keep);
      var r := Retain(rest, keep);
      forall j | 0 <= j < |r| ensures r[j].name != entry[0].name {
        assert r[j] in r && r[j] in rest;
      }
    }
  }

  /** The names of a list of distinct entries are as many as the entries. */
  lemma {:induction false} NamesSize(s: seq<Cached>, names: set<Name>)
    requires DistinctEntries(s) && forall n :: n in names <==> Has(s, n)
    ensures |names| == |s|
    decreases |s|
  {
    if s == [] {
      assert names == {};
    } else {
      var rest, n := s[1..], s[0].name;
      assert forall i :: 0 <= i < |rest| ==> rest[i] == s[i + 1];
      assert Has(s, n);
      forall m ensures m in names - {n} <==> Has(rest, m) {
        if Has(rest, m) {
          var i :| 0 <= i < |rest| && rest[i].name == m;
          assert s[i + 1].name == m;
        }
        if m in names - {n} {
          var i :| 0 <= i < |s| && s[i].name == m;
          assert rest[i - 1].name == m;
        }
      }
      NamesSize(rest, names - {n});
    }
  }

  lemma {:induction false} RetainedNames(entry: seq<Cached>, t: Facts, slot: Slot, now: int, name: Name)
    requires SlotRefines(entry, t, slot, now)
    ensures var kept := Retain(entry, LiveOther(now, name));
            && DistinctEntries(kept) && |kept| == |LiveNames(t, slot, now) - {name}|
            && forall n :: Has(kept, n) <==> n != name && LiveFact(t, slot, n, now)
  {
    var keep := LiveOther(now, name);
    var kept := Retain(entry, keep);
    RetainDistinct(entry, keep);
    forall n ensures Has(kept, n) <==> n != name && LiveFact(t, slot, n, now) {
      if Has(kept, n) {
        var i :| 0 <= i < |kept| && kept[i].name == n;
        assert kept[i] in kept;
      }
      if n != name && LiveFact(t, slot, n, now) {
        assert Has(entry, n);
        var i :| 0 <= i < |entry| && entry[i].name == n;
        assert entry[i] in entry;
        assert entry[i] in kept;
        var j :| 0 <= j < |kept| && kept[j] == entry[i];
      }
    }
    forall n ensures n in LiveNames(t, slot, now) - {name} <==> Has(kept, n) {
      if n != name && LiveFact(t, slot, n, now) {
        assert FactKey(slot, n) in t && FactKey(slot, n).name == n;
      }
    }
    NamesSize(kept, LiveNames(t, slot, now) - {name});
  }

  lemma KeptSlot(kept: seq<Cached>, t: Facts, slot: Slot, name: Name, f: Fact, now: int)
    requires DistinctEntries(kept) && !f.admitted
    requires forall c :: c in kept ==>
               && c.name != name && FactKey(slot, c.name) in t && t[FactKey(slot, c.name)] == Fact(c.observedAt, c.expiresAt, true)
               && c.observedAt <= now
    requires forall n :: n != name && LiveFact(t, slot, n, now) ==> Has(kept, n)
    ensures SlotRefines(kept, t[FactKey(slot, name) := f], slot, now)
  {
    var u := t[FactKey(slot, name) := f];
    forall n | LiveFact(u, slot, n, now) ensures Has(kept, n) {
      assert n != name && LiveFact(t, slot, n, now);
    }
  }

  lemma GrownSlot(kept: seq<Cached>, t: Facts, slot: Slot, c: Cached, now: int)
    requires SlotRefines(kept, t, slot, now) && c.observedAt <= now && !Has(kept, c.name)
    ensures SlotRefines(kept + [c], t[FactKey(slot, c.name) := Fact(c.observedAt, c.expiresAt, true)], slot, now)
  {
    var r, u := kept + [c], t[FactKey(slot, c.name) := Fact(c.observedAt, c.expiresAt, true)];
    assert forall i :: 0 <= i < |kept| ==> kept[i] in kept;
    forall n | LiveFact(u, slot, n, now) ensures Has(r, n) {
      if n == c.name {
        assert r[|kept|].name == n;
      } else {
        assert LiveFact(t, slot, n, now);
        var i :| 0 <= i < |kept| && kept[i].name == n;
        assert r[i].name == n;
      }
    }
  }

  /** After retaining the other live names, the slot refines the facts with this name not admitted. */
  lemma {:induction false} RetainedSlot(entry: seq<Cached>, t: Facts, slot: Slot, name: Name, f: Fact, now: int)
    requires SlotRefines(entry, t, slot, now) && !f.admitted
    ensures var kept := Retain(entry, LiveOther(now, name));
            && SlotRefines(kept, t[FactKey(slot, name) := f], slot, now) && !Has(kept, name)
            && |kept| == |LiveNames(t, slot, now) - {name}| && |kept| <= |entry|
  {
    RetainedNames(entry, t, slot, now, name);
    RetainDistinct(entry, LiveOther(now, name));
    KeptSlot(Retain(entry, LiveOther(now, name)), t, slot, name, f, now);
  }

  lemma LearnSlot(entry: seq<Cached>, t: Facts, config: Config, slot: Slot, name: Name, ttl: nat, now: int)
    requires SlotRefines(entry, t, slot, now) && |entry| <= config.maxNames
    ensures SlotRefines(LearnEntry(entry, config, name, ttl, now), Record(t, config, slot, name, ttl, now), slot, now)
    ensures |LearnEntry(entry, config, name, ttl, now)| <= config.maxNames
  {
    hide SlotRefines;
    hide LiveNames;
    hide Has;
    var kept := Retain(entry, LiveOther(now, name));
    var c := Cached(name, now, now + Ttl(config, ttl) * SECOND);
    var k, f := FactKey(slot, name), Fact(now, c.expiresAt, false);
    RetainedSlot(entry, t, slot, name, f, now);
    hide Retain;
    if |kept| < config.maxNames {
      GrownSlot(kept, t[k := f], slot, c, now);
      Counting.Overwrite(t, k, f, Fact(now, c.expiresAt, true));
    }
  }

  lemma OtherSlot(entry: seq<Cached>, t: Facts, config: Config, slot: Slot, changed: Slot, name: Name, ttl: nat, now: int)
    requires SlotRefines(entry, t, slot, now) && slot != changed
    ensures SlotRefines(entry, Record(t, config, changed, name, ttl, now), slot, now)
  {
    var u := Record(t, config, changed, name, ttl, now);
    forall n | LiveFact(u, slot, n, now) ensures Has(entry, n) {
      assert LiveFact(t, slot, n, now);
    }
  }

  lemma LearnRefines(slots: Slots, t: Facts, config: Config, cgroup: nat, name: Name, answer: Answer, now: int)
    requires Refines(slots, t, config, now)
    ensures Refines(Learn(slots, config, cgroup, name, answer, now),
                    Record(t, config, (cgroup, answer.address), name, answer.ttl, now), config, now)
  {
    hide SlotRefines;
    hide Record;
    hide LearnEntry;
    var changed := (cgroup, answer.address);
    var r, u := Learn(slots, config, cgroup, name, answer, now), Record(t, config, changed, name, answer.ttl, now);
    forall slot ensures SlotRefines(SlotOf(r, slot), u, slot, now) && |SlotOf(r, slot)| <= config.maxNames {
      var entry := SlotOf(slots, slot);
      assert SlotRefines(entry, t, slot, now);
      if slot == changed {
        LearnSlot(entry, t, config, slot, name, answer.ttl, now);
      } else {
        OtherSlot(entry, t, config, slot, changed, name, answer.ttl, now);
      }
    }
  }

  lemma {:induction false} LearnAllRefines(slots: Slots, t: Facts, config: Config, cgroup: nat, name: Name, answers: seq<Answer>, now: int)
    requires Refines(slots, t, config, now)
    ensures Refines(LearnAll(slots, config, cgroup, name, answers, now), RecordAll(t, config, cgroup, name, answers, now), config, now)
    decreases |answers|
  {
    hide Refines;
    if answers != [] {
      var init, last := answers[..|answers| - 1], answers[|answers| - 1];
      LearnAllRefines(slots, t, config, cgroup, name, init, now);
      LearnRefines(LearnAll(slots, config, cgroup, name, init, now), RecordAll(t, config, cgroup, name, init, now), config, cgroup, name, last, now);
    }
  }

  // ---------------------------------------------------------------- asking

  lemma NameLeqPreorder()
    ensures Preorder(NameLeq)
  {
    forall a, b ensures NameLeq(a, b) || NameLeq(b, a) {
      LexTotal(a.name, b.name);
    }
    forall a, b, c | NameLeq(a, b) && NameLeq(b, c) ensures NameLeq(a, c) {
      LexTransitive(a.name, b.name, c.name);
    }
  }

  lemma {:induction false} DedupNothing(s: seq<Cached>)
    requires DistinctEntries(s)
    ensures DedupByName(s) == s
    decreases |s|
  {
    if |s| > 1 {
      assert forall i :: 0 <= i < |s[1..]| ==> s[1..][i] == s[i + 1];
      DedupNothing(s[1..]);
      assert s == [s[0]] + s[1..];
    }
  }

  lemma PermutedDistinct(s: seq<Cached>, r: seq<Cached>)
    requires DistinctEntries(s) && multiset(r) == multiset(s)
    ensures DistinctEntries(r)
  {
    assert Distinct(s);
    DistinctPermutation(s, r);
    forall i, j | 0 <= i < j < |r| ensures r[i].name != r[j].name {
      assert r[i] in multiset(r) && r[j] in multiset(r);
      assert r[i] in s && r[j] in s;
      var a, b :| 0 <= a < |s| && 0 <= b < |s| && s[a] == r[i] && s[b] == r[j];
      assert a != b;
      assert a < b || b < a;
    }
  }

  /** Sorting and removing duplicates leaves the live entries, each once, in the order of their names. */
  lemma TidyIs(entry: seq<Cached>, now: int)
    requires DistinctEntries(entry)
    ensures var tidy := Tidy(entry, now);
            && DistinctEntries(tidy) && |tidy| <= |entry| && Sorted(tidy, NameLeq)
            && forall c :: c in tidy <==> c in entry && c.expiresAt > now
  {
    var keep := LiveAt(now);
    var kept := Retain(entry, keep);
    RetainDistinct(entry, keep);
    NameLeqPreorder();
    SortElements(kept, NameLeq);
    SortSorted(kept, NameLeq);
    var sorted := Sort(kept, NameLeq);
    PermutedDistinct(kept, sorted);
    DedupNothing(sorted);
    forall c ensures c in sorted <==> c in kept {
      assert c in sorted <==> c in multiset(sorted);
      assert c in kept <==> c in multiset(kept);
    }
  }

  lemma {:induction false} Extremes(s: seq<Cached>)
    requires s != []
    ensures (forall c :: c in s ==> c.observedAt <= Latest(s)) && (exists c :: c in s && c.observedAt == Latest(s))
    ensures (forall c :: c in s ==> Earliest(s) <= c.expiresAt) && (exists c :: c in s && c.expiresAt == Earliest(s))
    decreases |s|
  {
    assert s[0] in s;
    if |s| > 1 {
      var rest := s[1..];
      Extremes(rest);
      assert s == [s[0]] + rest;
      var a :| a in rest && a.observedAt == Latest(rest);
      var b :| b in rest && b.expiresAt == Earliest(rest);
      assert a in s && b in s;
    }
  }

  /** The context a caller gets: all live names of that cgroup and address, sorted, with the tightest times. */
  ghost predicate Answers(r: Option<Context>, t: Facts, slot: Slot, now: int) {
    var live := LiveNames(t, slot, now);
    && (r.Some? <==> live != {})
    && (r.Some? ==>
          && ValidContext(r.value) && Distinct(r.value.names) && Sorted(r.value.names, LexLeq)
          && (forall n :: n in r.value.names <==> n in live)
          && (forall n :: n in live ==>
                var f := t[FactKey(slot, n)]; f.observedAt <= r.value.observedAt <= now && now < r.value.expiresAt <= f.expiresAt)
          && (exists n :: n in live && t[FactKey(slot, n)].observedAt == r.value.observedAt)
          && (exists n :: n in live && t[FactKey(slot, n)].expiresAt == r.value.expiresAt))
  }

  lemma {:induction false} NamesInOrder(tidy: seq<Cached>)
    requires DistinctEntries(tidy) && Sorted(tidy, NameLeq)
    ensures Distinct(Names(tidy)) && Sorted(Names(tidy), LexLeq)
  {
    hide LexLeq;
    forall i, j | 0 <= i < j < |tidy| ensures LexLeq(Names(tidy)[i], Names(tidy)[j]) {
      assert NameLeq(tidy[i], tidy[j]);
    }
  }

  lemma {:induction false} TimesAround(tidy: seq<Cached>, t: Facts, slot: Slot, now: int, n: Name)
    requires SlotRefines(tidy, t, slot, now) && tidy != [] && (forall c :: c in tidy ==> c.expiresAt > now)
    requires exists c :: c in tidy && c.name == n
    ensures FactKey(slot, n) in t
    ensures var f := t[FactKey(slot, n)]; f.observedAt <= Latest(tidy) <= now && now < Earliest(tidy) <= f.expiresAt
  {
    Extremes(tidy);
    hide Latest;
    hide Earliest;
    var c :| c in tidy && c.name == n;
  }

  /** The times of the context are times of live names. */
  lemma {:induction false} TimesMet(tidy: seq<Cached>, t: Facts, slot: Slot, now: int)
    requires SlotRefines(tidy, t, slot, now) && tidy != [] && (forall c :: c in tidy ==> c.expiresAt > now)
    requires forall n :: n in LiveNames(t, slot, now) ==> FactKey(slot, n) in t
    ensures exists n :: n in LiveNames(t, slot, now) && t[FactKey(slot, n)].observedAt == Latest(tidy)
    ensures exists n :: n in LiveNames(t, slot, now) && t[FactKey(slot, n)].expiresAt == Earliest(tidy)
  {
    Extremes(tidy);
    hide Latest;
    hide Earliest;
    var a :| a in tidy && a.observedAt == Latest(tidy);
    var b :| b in tidy && b.expiresAt == Earliest(tidy);
    assert FactKey(slot, a.name) in t && a.name in LiveNames(t, slot, now);
    assert FactKey(slot, b.name) in t && b.name in LiveNames(t, slot, now);
  }

  lemma AnswersFrom(r: Context, t: Facts, slot: Slot, now: int, live: set<Name>)
    requires live == LiveNames(t, slot, now) && live != {} && ValidContext(r)
    requires Distinct(r.names) && Sorted(r.names, LexLeq) && forall n :: n in r.names <==> n in live
    requires forall n :: n in live ==> FactKey(slot, n) in t
    requires forall n :: n in live ==>
               var f := t[FactKey(slot, n)]; f.observedAt <= r.observedAt <= now && now < r.expiresAt <= f.expiresAt
    requires exists n :: n in live && t[FactKey(slot, n)].observedAt == r.observedAt
    requires exists n :: n in live && t[FactKey(slot, n)].expiresAt == r.expiresAt
    ensures Answers(Some(r), t, slot, now)
  {}

  lemma {:induction false} TidyAnswers(tidy: seq<Cached>, t: Facts, slot: Slot, now: int)
    requires SlotRefines(tidy, t, slot, now) && DistinctEntries(tidy) && 0 < |tidy| <= MAX_CONTEXT_NAMES && Sorted(tidy, NameLeq)
    requires forall c :: c in tidy ==> c.expiresAt > now
    ensures Answers(NewContext(Names(tidy), Latest(tidy), Earliest(tidy)), t, slot, now)
  {
    hide SlotRefines;
    hide DistinctEntries;
    hide Latest;
    hide Earliest;
    hide LiveNames;
    hide Sorted;
    hide Distinct;
    hide Answers;
    var names, live := Names(tidy), LiveNames(t, slot, now);
    NamesInOrder(tidy);
    LiveInTidy(tidy, t, slot, now);
    forall n | n in live
      ensures FactKey(slot, n) in t
      ensures var f := t[FactKey(slot, n)]; f.observedAt <= Latest(tidy) <= now && now < Earliest(tidy) <= f.expiresAt
    {
      TimesAround(tidy, t, slot, now, n);
    }
    assert names[0] in names && names[0] in live;
    TimesMet(tidy, t, slot, now);
    var r := Context(names, Latest(tidy), Earliest(tidy), |names| > 1);
    AnswersFrom(r, t, slot, now, live);
  }

  lemma ContextSlot(entry: seq<Cached>, t: Facts, config: Config, slot: Slot, now: int)
    requires SlotRefines(entry, t, slot, now) && |entry| <= config.maxNames <= MAX_CONTEXT_NAMES
    ensures var tidy := Tidy(entry, now);
            && SlotRefines(tidy, t, slot, now) && |tidy| <= config.maxNames
            && Answers(if tidy == [] then None else NewContext(Names(tidy), Latest(tidy), Earliest(tidy)), t, slot, now)
  {
    var tidy := Tidy(entry, now);
    TidyIs(entry, now);
    forall n | LiveFact(t, slot, n, now) ensures Has(tidy, n) {
      var i :| 0 <= i < |entry| && entry[i].name == n;
      assert entry[i] in entry && entry[i] in tidy;
      var j :| 0 <= j < |tidy| && tidy[j] == entry[i];
    }
    assert SlotRefines(tidy, t, slot, now);
    hide SlotRefines;
    if tidy != [] {
      TidyAnswers(tidy, t, slot, now);
    } else {
      LiveInTidy(tidy, t, slot, now);
      assert LiveNames(t, slot, now) == {};
    }
  }

  lemma {:induction false} LiveInTidy(tidy: seq<Cached>, t: Facts, slot: Slot, now: int)
    requires SlotRefines(tidy, t, slot, now) && forall c :: c in tidy ==> c.expiresAt > now
    ensures forall n :: n in LiveNames(t, slot, now) <==> n in Names(tidy)
    ensures forall n :: n in LiveNames(t, slot, now) ==> exists c :: c in tidy && c.name == n
  {
    forall n ensures n in LiveNames(t, slot, now) <==> n in Names(tidy) {
      if n in LiveNames(t, slot, now) {
        assert LiveFact(t, slot, n, now);
        assert Has(tidy, n);
      }
      if n in Names(tidy) {
        var i :| 0 <= i < |tidy| && Names(tidy)[i] == n;
        assert tidy[i] in tidy;
        assert FactKey(slot, n) in t;
      }
    }
    forall n | n in LiveNames(t, slot, now) ensures exists c :: c in tidy && c.name == n {
      var i :| 0 <= i < |tidy| && Names(tidy)[i] == n;
      assert tidy[i] in tidy;
    }
  }

  /** Asking leaves a slot only while something in it is live, and then only what is; other slots stay as they are. */
  lemma {:induction false} AskForgets(slots: Slots, slot: Slot, now: int)
    requires DistinctEntries(SlotOf(slots, slot))
    ensures var r := AfterContext(slots, slot, now);
            && (slot in r <==> exists c :: c in SlotOf(slots, slot) && c.expiresAt > now)
            && (forall c :: c in SlotOf(r, slot) <==> c in SlotOf(slots, slot) && c.expiresAt > now)
            && (forall other :: other != slot ==> (other in r <==> other in slots) && SlotOf(r, other) == SlotOf(slots, other))
  {
    var entry := SlotOf(slots, slot);
    TidyIs(entry, now);
    hide Tidy;
    if c :| c in entry && c.expiresAt > now {
      assert c in Tidy(entry, now);
    }
    if Tidy(entry, now) != [] {
      assert Tidy(entry, now)[0] in Tidy(entry, now);
    }
  }
}
