/** The server's ingestion of a batch: retention, validation and duplicate handling in one transaction. */
module Ingestion {
  import opened Text
  import opened Delivery

  /**
   `stored` are the rows now present, by event identifier; `closed` is the retention boundary; `log` lists every
   row ever inserted, in order, whether or not retention has removed it since.
   */
  datatype Server = Server(stored: map<nat, Event>, closed: Option<int>, log: seq<Event>)

  datatype Refusal = InvalidOwnership | RevokedCredential | InvalidEvent(reason: nat)

  datatype BatchOutcome = Committed(server: Server, accepted: nat, expired: nat) | Refused(refusal: Refusal)

  predicate Expired(s: Server, e: Event) { s.closed.Some? && e.observedAt < s.closed.value }

  /** The server owes nothing more for this event: it is stored, or retention has closed over it. */
  predicate Settled(s: Server, e: Event) { e.id in s.stored || Expired(s, e) }

  function PersistOne(s: Server, e: Event): Server {
    if Settled(s, e) then s else s.(stored := s.stored[e.id := e], log := s.log + [e])
  }

  function PersistAll(s: Server, events: seq<Event>): (r: Server)
    ensures |r.log| >= |s.log|
  {
    if events == [] then s else PersistOne(PersistAll(s, events[..|events| - 1]), events[|events| - 1])
  }

  function ExpiredCount(s: Server, events: seq<Event>): nat {
    if events == [] then 0
    else ExpiredCount(s, events[..|events| - 1]) + if Expired(s, events[|events| - 1]) then 1 else 0
  }

  /** How the first event that retention does not drop and that fails its checks fails. */
  function FirstFailure(s: Server, events: seq<Event>, check: Event -> Option<nat>): (r: Option<nat>)
    ensures r.None? <==> forall e :: e in events && !Expired(s, e) ==> check(e).None?
  {
    if events == [] then None
    else if !Expired(s, events[0]) && check(events[0]).Some? then assert events[0] in events; check(events[0])
    else
      assert events == [events[0]] + events[1..];
      FirstFailure(s, events[1..], check)
  }

  /** What becomes of a batch: ownership is checked first, then the credential, then the events in order. */
  function BatchVerdict(s: Server, sameOrganization: bool, active: bool, events: seq<Event>, check: Event -> Option<nat>): BatchOutcome {
    if !sameOrganization then Refused(InvalidOwnership)
    else if !active then Refused(RevokedCredential)
    else
      match FirstFailure(s, events, check)
      case Some(reason) => Refused(InvalidEvent(reason))
      case None => Committed(PersistAll(s, events), |PersistAll(s, events).log| - |s.log|, ExpiredCount(s, events))
  }

  /** `persist_application_batch_outcome`: nothing is kept unless the whole batch commits. */
  method PersistApplicationBatch(
    s: Server, sameOrganization: bool, active: bool, events: seq<Event>, check: Event -> Option<nat>) returns (r: BatchOutcome)
    ensures r == BatchVerdict(s, sameOrganization, active, events, check)
  {
    if !sameOrganization {
      return Refused(InvalidOwnership);
    }
    if !active {
      return Refused(RevokedCredential);
    }
    var tx, accepted, expired := s, 0, 0;
    for i := 0 to |events|
      invariant tx == PersistAll(s, events[..i]) && tx.closed == s.closed
      invariant |tx.log| == |s.log| + accepted && expired == ExpiredCount(s, events[..i])
      invariant FirstFailure(s, events, check) == FirstFailure(s, events[i..], check)
    {
      var event := events[i];
      assert events[..i + 1][..i] == events[..i];
      assert events[i..][0] == event && events[i..][1..] == events[i + 1..];
      if tx.closed.Some? && event.observedAt < tx.closed.value {
        expired := expired + 1;
      } else {
        var failure := check(event);
        if failure.Some? {
          return Refused(InvalidEvent(failure.value));
        }
        if event.id !in tx.stored {
          tx := tx.(stored := tx.stored[event.id := event], log := tx.log + [event]);
          accepted := accepted + 1;
        }
      }
    }
    assert events[..|events|] == events;
    return Committed(tx, accepted, expired);
  }

  lemma {:induction false} PersistKeeps(s: Server, events: seq<Event>)
    ensures PersistAll(s, events).closed == s.closed && s.log <= PersistAll(s, events).log
    ensures forall id :: id in s.stored ==> id in PersistAll(s, events).stored
  {
    if events != [] {
      PersistKeeps(s, events[..|events| - 1]);
    }
  }

  /** A committed batch settles all of its events. */
  lemma {:induction false} PersistSettles(s: Server, events: seq<Event>)
    ensures forall e :: e in events ==> Settled(PersistAll(s, events), e)
  {
    if events != [] {
      var init := events[..|events| - 1];
      PersistSettles(s, init);
      PersistKeeps(s, init);
      forall e | e in events ensures Settled(PersistAll(s, events), e) {
        assert e in init || e == events[|events| - 1];
      }
    }
  }

  lemma {:induction false} PersistSettled(s: Server, events: seq<Event>)
    requires forall e :: e in events ==> Settled(s, e)
    ensures PersistAll(s, events) == s
  {
    if events != [] {
      PersistSettled(s, events[..|events| - 1]);
    }
  }

  /** Ingesting the same batch again changes nothing. */
  lemma {:induction false} PersistIdempotent(s: Server, events: seq<Event>)
    ensures PersistAll(PersistAll(s, events), events) == PersistAll(s, events)
  {
    PersistSettles(s, events);
    PersistSettled(PersistAll(s, events), events);
  }

  lemma {:induction false} PersistSingle(s: Server, e: Event)
    ensures PersistAll(s, [e]) == PersistOne(s, e)
  {
    assert [e][..0] == [];
    assert PersistAll(s, [e][..0]) == s;
  }

  // ---------------------------------------------------------------- which rows a batch adds

  /** Event `i` of the batch is inserted: its identifier is new, also among the events before it, and it is not too old. */
  ghost predicate Inserts(s: Server, events: seq<Event>, i: nat)
    requires i < |events|
  {
    && events[i].id !in s.stored && (s.closed.Some? ==> events[i].observedAt >= s.closed.value)
    && forall j :: 0 <= j < i && events[j].id == events[i].id ==> s.closed.Some? && events[j].observedAt < s.closed.value
  }

  ghost function NewRows(s: Server, events: seq<Event>): seq<Event> {
    if events == [] then []
    else NewRows(s, events[..|events| - 1]) + if Inserts(s, events, |events| - 1) then [events[|events| - 1]] else []
  }

  ghost function TooOld(s: Server, events: seq<Event>): nat {
    if events == [] then 0
    else
      TooOld(s, events[..|events| - 1])
      + if s.closed.Some? && events[|events| - 1].observedAt < s.closed.value then 1 else 0
  }

  lemma {:induction false} StoredAfter(s: Server, events: seq<Event>, id: nat)
    ensures id in PersistAll(s, events).stored <==>
            id in s.stored || exists j :: 0 <= j < |events| && events[j].id == id && !(s.closed.Some? && events[j].observedAt < s.closed.value)
  {
    if events != [] {
      var n := |events| - 1;
      StoredAfter(s, events[..n], id);
      PersistKeeps(s, events[..n]);
      assert forall j :: 0 <= j < n ==> events[..n][j] == events[j];
      if events[n].id == id && !(s.closed.Some? && events[n].observedAt < s.closed.value) {
        assert id in PersistAll(s, events).stored;
      }
    }
  }

  /** A batch adds exactly these rows, in order, and no other row changes. */
  lemma {:induction false} PersistExact(s: Server, events: seq<Event>)
    ensures PersistAll(s, events).log == s.log + NewRows(s, events)
    ensures forall id :: id in s.stored ==> id in PersistAll(s, events).stored && PersistAll(s, events).stored[id] == s.stored[id]
    ensures forall e :: e in NewRows(s, events) ==> e.id in PersistAll(s, events).stored && PersistAll(s, events).stored[e.id] == e
    ensures forall id :: id in PersistAll(s, events).stored ==> id in s.stored || exists e :: e in NewRows(s, events) && e.id == id
  {
    if events == [] {
      assert s.log + [] == s.log;
    } else {
      var n := |events| - 1;
      var before, e := PersistAll(s, events[..n]), events[n];
      PersistExact(s, events[..n]);
      PersistKeeps(s, events[..n]);
      StoredAfter(s, events[..n], e.id);
      assert forall j :: 0 <= j < n ==> events[..n][j] == events[j];
      assert Inserts(s, events, n) <==> !Settled(before, e);
      if Inserts(s, events, n) {
        assert s.log + NewRows(s, events) == before.log + [e];
        assert NewRows(s, events)[|NewRows(s, events[..n])|] == e;
      } else {
        assert NewRows(s, events) == NewRows(s, events[..n]);
      }
      forall id | id in PersistAll(s, events).stored && id !in s.stored ensures exists r :: r in NewRows(s, events) && r.id == id {
        if id == e.id && Inserts(s, events, n) {
          assert e in NewRows(s, events);
        } else {
          var r :| r in NewRows(s, events[..n]) && r.id == id;
          assert r in NewRows(s, events);
        }
      }
    }
  }

  lemma {:induction false} ExpiredCounted(s: Server, events: seq<Event>)
    ensures ExpiredCount(s, events) == TooOld(s, events)
  {
    if events != [] {
      ExpiredCounted(s, events[..|events| - 1]);
    }
  }

  /** What a batch that is not refused reports: how many rows it added and how many events were too old. */
  lemma {:induction false} CommitExact(s: Server, sameOrganization: bool, active: bool, events: seq<Event>, check: Event -> Option<nat>)
    requires sameOrganization && active
    requires forall e :: e in events && (s.closed.Some? ==> e.observedAt >= s.closed.value) ==> check(e).None?
    ensures var r := BatchVerdict(s, sameOrganization, active, events, check);
            && r.Committed? && r.server.log == s.log + NewRows(s, events) && r.server.closed == s.closed
            && r.accepted == |NewRows(s, events)| && r.expired == TooOld(s, events)
  {
    hide NewRows;
    hide TooOld;
    PersistExact(s, events);
    PersistKeeps(s, events);
    ExpiredCounted(s, events);
  }

  /** Ownership is looked at before the credential, and both before any event. */
  lemma RefusalOrder(s: Server, sameOrganization: bool, active: bool, events: seq<Event>, check: Event -> Option<nat>)
    ensures var r := BatchVerdict(s, sameOrganization, active, events, check);
            && (r == Refused(InvalidOwnership) <==> !sameOrganization)
            && (r == Refused(RevokedCredential) <==> sameOrganization && !active)
  {}

  /** A batch is refused for the first event that is not too old and fails, if ownership and credential are right. */
  lemma {:induction false} RefusalExact(s: Server, events: seq<Event>, check: Event -> Option<nat>, i: nat)
    requires i < |events| && (s.closed.Some? ==> events[i].observedAt >= s.closed.value) && check(events[i]).Some?
    requires forall j :: 0 <= j < i && (s.closed.Some? ==> events[j].observedAt >= s.closed.value) ==> check(events[j]).None?
    ensures BatchVerdict(s, true, true, events, check) == Refused(InvalidEvent(check(events[i]).value))
    decreases i
  {
    if i > 0 {
      assert forall j :: 0 <= j < |events[1..]| ==> events[1..][j] == events[j + 1];
      RefusalExact(s, events[1..], check, i - 1);
    }
  }

  /** The retention worker: the boundary never moves back, and only rows before it can go. */
  function Close(s: Server, boundary: int, gone: set<nat>): Server {
    var closed := if s.closed.Some? && s.closed.value > boundary then s.closed.value else boundary;
    s.(closed := Some(closed),
       stored := map id | id in s.stored && !(id in gone && s.stored[id].observedAt < closed) :: s.stored[id])
  }

  /** Retention moves the boundary to the later of the two, and removes of the rows named exactly those before it. */
  lemma CloseExact(s: Server, boundary: int, gone: set<nat>)
    ensures var t := Close(s, boundary, gone);
            && t.closed.Some? && boundary <= t.closed.value && (s.closed.Some? ==> s.closed.value <= t.closed.value)
            && (t.closed.value == boundary || s.closed == t.closed) && t.log == s.log
            && (forall id :: id in t.stored ==> id in s.stored && t.stored[id] == s.stored[id])
            && (forall id :: id in s.stored && id !in t.stored <==> id in s.stored && id in gone && s.stored[id].observedAt < t.closed.value)
  {}
}
