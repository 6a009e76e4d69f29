/** Thread windows on the wire, their identifiers, and the server's check of an arriving window. */
module ThreadWire {
  import opened Text
  import opened ThreadWindow

  // ---------------------------------------------------------------- the window identifier

  /** A signed 64-bit value as the unsigned value with the same bytes. */
  function Unsigned64(n: int): nat
    requires Fits(n)
  {
    if n >= 0 then n else n + U64_MAX + 1
  }

  /** The bytes hashed into a window identifier; `timestamp_nanos_opt().unwrap_or_default()` is the last field. */
  function IdPreimage(process: Process, generation: Generation, start: int): seq<byte> {
    BigEndian(process.cgroup, 8) + BigEndian(process.tgid, 4) + BigEndian(generation.number, 8)
    + generation.epoch + BigEndian(Unsigned64(Nanos(start)), 8)
  }

  /** The first 16 bytes of the digest with the version and variant bits set. */
  function IdOf(digest: seq<byte>): Uuid {
    [At(digest, 0), At(digest, 1), At(digest, 2), At(digest, 3), At(digest, 4), At(digest, 5),
     At(digest, 6) % 16 + 0x50, At(digest, 7), At(digest, 8) % 64 + 0x80, At(digest, 9), At(digest, 10),
     At(digest, 11), At(digest, 12), At(digest, 13), At(digest, 14), At(digest, 15)]
  }

  lemma IdNotNil(digest: seq<byte>)
    ensures IdOf(digest) != NIL
  {
    assert IdOf(digest)[6] != NIL[6];
  }

  /** Different processes, generations or windows are hashed from different bytes. */
  lemma IdPreimageInjective(p: Process, g: Generation, s: int, q: Process, h: Generation, t: int)
    requires p.cgroup <= U64_MAX && q.cgroup <= U64_MAX && p.tgid < 0x1_0000_0000 && q.tgid < 0x1_0000_0000
    requires g.number <= U64_MAX && h.number <= U64_MAX && Fits(s) && Fits(t)
    ensures IdPreimage(p, g, s) == IdPreimage(q, h, t)
       <==> p.cgroup == q.cgroup && p.tgid == q.tgid && g.number == h.number && g.epoch == h.epoch && s == t
  {
    var a, b := IdPreimage(p, g, s), IdPreimage(q, h, t);
    if a == b {
      assert BigEndian(p.cgroup, 8) == a[..8] == b[..8] == BigEndian(q.cgroup, 8);
      assert BigEndian(p.tgid, 4) == a[8..12] == b[8..12] == BigEndian(q.tgid, 4);
      assert BigEndian(g.number, 8) == a[12..20] == b[12..20] == BigEndian(h.number, 8);
      assert g.epoch == a[20..36] == b[20..36] == h.epoch;
      assert BigEndian(Unsigned64(s), 8) == a[36..] == b[36..] == BigEndian(Unsigned64(t), 8);
      Pow256Values();
      BigEndianRoundTrip(p.cgroup, 8);
      BigEndianRoundTrip(q.cgroup, 8);
      BigEndianRoundTrip(p.tgid, 4);
      BigEndianRoundTrip(q.tgid, 4);
      BigEndianRoundTrip(g.number, 8);
      BigEndianRoundTrip(h.number, 8);
      BigEndianRoundTrip(Unsigned64(s), 8);
      BigEndianRoundTrip(Unsigned64(t), 8);
    }
  }

  // ---------------------------------------------------------------- encode and decode

  datatype WireGeneration = WireGeneration(number: nat, epoch: Uuid, startObserved: bool)

  /** Identifiers travel as their text form, which loses nothing; it is not spelled out here. */
  datatype WireWindow = WireWindow(
    id: Uuid, generation: Option<WireGeneration>, startedNanos: int, endedNanos: int,
    created: nat, exited: nat, activeAtStart: nat, activeAtEnd: nat, peakActive: nat,
    names: seq<NameCount>, baseline: int, complete: bool, overflow: nat, gaps: seq<int>)

  datatype ProtocolError = MissingGeneration | BadBaseline | BadGap | BadWindow

  datatype Decoded = Accepted(window: Window) | Rejected(error: ProtocolError)

  /** The instant is within the range of signed 64-bit nanoseconds. */
  predicate Fits(t: int) { -0x8000_0000_0000_0000 <= t <= 0x7FFF_FFFF_FFFF_FFFF }

  /** `timestamp_nanos_opt().unwrap_or_default()`. */
  function Nanos(t: int): (r: int)
    ensures Fits(r)
  {
    if Fits(t) then t else 0
  }

  /** `timestamp`: seconds and nanoseconds put together again. */
  function Timestamp(n: int): int { n / SECOND * SECOND + n % SECOND }

  function BaselineCode(b: Baseline): int {
    match b case Observed => 1 case Snapshot => 2 case Unavailable => 3
  }

  function BaselineOf(code: int): Option<Baseline> {
    if code == 1 then Some(Observed) else if code == 2 then Some(Snapshot) else if code == 3 then Some(Unavailable) else None
  }

  function GapOf(code: int): Option<Gap> {
    if code == 1 then Some(KernelLoss) else if code == 2 then Some(DecodeFailure)
    else if code == 3 then Some(AttributionFailure) else if code == 4 then Some(StateCapacity)
    else if code == 5 then Some(SnapshotRace) else if code == 6 then Some(SnapshotPermission)
    else if code == 7 then Some(SnapshotTruncated) else if code == 8 then Some(DeliveryGap) else None
  }

  function GapCodes(gaps: seq<Gap>): seq<int> {
    if gaps == [] then [] else [Code(gaps[0]) + 1] + GapCodes(gaps[1..])
  }

  function GapsOf(codes: seq<int>): Option<seq<Gap>> {
    if codes == [] then Some([])
    else
      var rest := GapsOf(codes[1..]);
      if GapOf(codes[0]).None? || rest.None? then None else Some([GapOf(codes[0]).value] + rest.value)
  }

  function Encode(w: Window): WireWindow {
    WireWindow(
      w.id, Some(WireGeneration(w.generation.number, w.generation.epoch, w.generation.startObserved)),
      Nanos(w.startedAt), Nanos(w.endedAt), w.created, w.exited, w.activeAtStart, w.activeAtEnd, w.peakActive,
      w.names, BaselineCode(w.baseline), w.complete, w.overflow, GapCodes(w.gaps))
  }

  function Decode(v: WireWindow, process: Process): Decoded {
    if v.generation.None? then Rejected(MissingGeneration)
    else if BaselineOf(v.baseline).None? then Rejected(BadBaseline)
    else if GapsOf(v.gaps).None? then Rejected(BadGap)
    else
      var g := v.generation.value;
      var w := Window(
        v.id, process, Generation(g.number, g.epoch, g.startObserved), Timestamp(v.startedNanos), Timestamp(v.endedNanos),
        v.created, v.exited, v.activeAtStart, v.activeAtEnd, v.peakActive, v.names,
        BaselineOf(v.baseline).value, v.complete, v.overflow, GapsOf(v.gaps).value);
      if Validate(w) == Ok then Accepted(w) else Rejected(BadWindow)
  }

  lemma {:induction false} GapsRoundTrip(gaps: seq<Gap>)
    ensures GapsOf(GapCodes(gaps)) == Some(gaps)
  {
    if gaps != [] {
      GapsRoundTrip(gaps[1..]);
      assert gaps == [gaps[0]] + gaps[1..];
    }
  }

  lemma GapExact(c: int)
    ensures GapOf(c).Some? <==> 1 <= c <= 8
    ensures GapOf(c).Some? ==> Code(GapOf(c).value) + 1 == c
  {}

  ghost predicate AllKnown(codes: seq<int>) { forall c :: c in codes ==> 1 <= c <= 8 }

  lemma KnownStep(codes: seq<int>)
    requires codes != []
    ensures AllKnown(codes) <==> 1 <= codes[0] <= 8 && AllKnown(codes[1..])
  {
    var rest := codes[1..];
    assert codes[0] in codes && forall i :: 0 <= i < |rest| ==> rest[i] == codes[i + 1];
    if AllKnown(codes) {
      forall c | c in rest ensures 1 <= c <= 8 {
        assert c in codes;
      }
    }
    if AllKnown(rest) && 1 <= codes[0] <= 8 {
      forall c | c in codes ensures 1 <= c <= 8 {
        assert c == codes[0] || c in rest;
      }
    }
  }

  lemma {:induction false} GapsBack(codes: seq<int>)
    ensures GapsOf(codes).Some? <==> AllKnown(codes)
    ensures GapsOf(codes).Some? ==> GapCodes(GapsOf(codes).value) == codes
  {
    if codes != [] {
      hide GapOf;
      hide Code;
      hide AllKnown;
      GapExact(codes[0]);
      KnownStep(codes);
      GapsBack(codes[1..]);
      assert codes == [codes[0]] + codes[1..];
      if GapsOf(codes).Some? {
        var gaps := GapsOf(codes).value;
        assert gaps[1..] == GapsOf(codes[1..]).value;
      }
    }
  }

  /**
   Decoding is exact: bytes with 64-bit times are read as a window if and only if that window is coherent, its times
   fit, and it encodes to them, and otherwise the first of these is named: no generation, a baseline or a gap that is not known, a bad window.
   */
  lemma {:induction false} DecodeExact(v: WireWindow, process: Process)
    requires Fits(v.startedNanos) && Fits(v.endedNanos)
    ensures forall w: Window :: Decode(v, process) == Accepted(w) <==>
              w.process == process && Coherent(w) && Fits(w.startedAt) && Fits(w.endedAt) && Encode(w) == v
    ensures Decode(v, process) == Rejected(MissingGeneration) <==> v.generation.None?
    ensures Decode(v, process) == Rejected(BadBaseline) <==> v.generation.Some? && v.baseline !in {1, 2, 3}
    ensures Decode(v, process) == Rejected(BadGap) <==>
            v.generation.Some? && v.baseline in {1, 2, 3} && exists c :: c in v.gaps && !(1 <= c <= 8)
  {
    GapsBack(v.gaps);
    hide Validate;
    hide Coherent;
    forall w: Window | w.process == process && Coherent(w) && Fits(w.startedAt) && Fits(w.endedAt) && Encode(w) == v ensures Decode(v, process) == Accepted(w) {
      EncodedBack(w, v, process);
    }
    if Decode(v, process).Accepted? {
      AcceptedEncodes(v, process);
    }
  }

  lemma {:induction false} EncodedBack(w: Window, v: WireWindow, process: Process)
    requires w.process == process && Coherent(w) && Fits(w.startedAt) && Fits(w.endedAt) && Encode(w) == v
    ensures Decode(v, process) == Accepted(w)
  {
    hide Coherent;
    ValidateExact(w);
    RoundTripExact(w);
  }

  lemma {:induction false} AcceptedEncodes(v: WireWindow, process: Process)
    requires Fits(v.startedNanos) && Fits(v.endedNanos) && Decode(v, process).Accepted?
    ensures var w := Decode(v, process).window; w.process == process && Coherent(w) && Fits(w.startedAt) && Fits(w.endedAt) && Encode(w) == v
  {
    GapsBack(v.gaps);
    var w := Decode(v, process).window;
    ValidateExact(w);
    hide Validate;
    hide Coherent;
    assert forall n: int :: n / SECOND * SECOND + n % SECOND == n;
  }

  /** What the wire makes of a window: a bound outside 64-bit nanoseconds becomes the epoch. */
  function OnWire(w: Window): Window { w.(startedAt := Nanos(w.startedAt), endedAt := Nanos(w.endedAt)) }

  /**
   What comes back is decided by the window on the wire: that window if it is valid, and a rejection otherwise. So a
   window survives unchanged exactly when it is valid and its bounds fit 64-bit nanoseconds, and a valid one whose
   bounds do not fit is rejected.
   */
  lemma RoundTripExact(w: Window)
    ensures Decode(Encode(w), w.process) == if Validate(OnWire(w)) == Ok then Accepted(OnWire(w)) else Rejected(BadWindow)
    ensures Decode(Encode(w), w.process) == Accepted(w)
       <==> Validate(w) == Ok && Fits(w.startedAt) && Fits(w.endedAt)
    ensures Validate(w) == Ok && !(Fits(w.startedAt) && Fits(w.endedAt)) ==> Decode(Encode(w), w.process) == Rejected(BadWindow)
    ensures Fits(w.startedAt) && Fits(w.endedAt) && Validate(w) != Ok ==> Decode(Encode(w), w.process) == Rejected(BadWindow)
  {
    GapsRoundTrip(w.gaps);
    assert forall n: int :: n / SECOND * SECOND + n % SECOND == n;
    ValidateExact(w);
    ValidateExact(OnWire(w));
  }

  /** A quiet minute of one process, ending at the epoch. */
  function QuietMinute(): Window {
    Window(IdOf([]), Process(1, 1, 1, "a"), Generation(1, IdOf([]), true), -WINDOW_NANOS, 0, 0, 0, 0, 0, 0, [], Observed, true, 0, [])
  }

  /** An invalid window is not always rejected: an end past 64-bit nanoseconds comes back as the epoch, here a valid end. */
  lemma InvalidWindowComesBackValid()
    ensures var w := QuietMinute().(endedAt := 0x8000_0000_0000_0000);
            Validate(w) != Ok && Decode(Encode(w), w.process) == Accepted(QuietMinute())
  {
    var w := QuietMinute().(endedAt := 0x8000_0000_0000_0000);
    IdNotNil([]);
    ValidateExact(QuietMinute());
    assert OnWire(w) == QuietMinute();
    RoundTripExact(w);
  }

  // ---------------------------------------------------------------- the server's check

  datatype WindowEvent = WindowEvent(id: Uuid, observedAt: int, process: Process, window: Window)

  /** `validate_termination_event` on a thread window. */
  predicate ServerAccepts(e: WindowEvent) {
    Validate(e.window) == Ok && e.window.process == e.process && e.window.id == e.id && e.observedAt >= e.window.endedAt
  }
}
