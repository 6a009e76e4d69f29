/** The reassembler against a reference that keeps segments instead of streams and looks for frames instead of lengths. */
module DnsTcpReference {
  import opened Text
  import opened DnsTcp

  datatype Limits = Limits(streams: nat, message: nat, timeout: nat)

  // ---------------------------------------------------------------- frames

  ghost predicate Sendable(m: seq<byte>, max: nat) { 0 < |m| <= max && |m| < 0x1_0000 }

  /** The bytes are the whole frame of a message that may be sent. */
  ghost predicate Whole(bytes: seq<byte>, m: seq<byte>, max: nat) { Sendable(m, max) && bytes == Frame(m) }

  /** The bytes are the beginning, and no more, of the frame of a message that may be sent. */
  ghost predicate Begins(bytes: seq<byte>, m: seq<byte>, max: nat) {
    Sendable(m, max) && |bytes| < |Frame(m)| && bytes == Frame(m)[..|bytes|]
  }

  /** Two bytes or more are a whole frame, the beginning of one, or neither; fewer are not looked at. */
  lemma VerdictExact(bytes: seq<byte>, max: nat)
    requires |bytes| >= 2
    ensures forall m :: Verdict(bytes, max) == Message(m) <==> Whole(bytes, m, max)
    ensures Verdict(bytes, max) == Pending <==> exists m :: Begins(bytes, m, max)
    ensures Verdict(bytes, max) in {Pending, Rejected(InvalidFraming)} || Verdict(bytes, max).Message?
  {
    hide Frame;
    forall m ensures Verdict(bytes, max) == Message(m) <==> Whole(bytes, m, max) {
      if Verdict(bytes, max) == Message(m) {
        FrameBack(bytes, max);
        assert |m| == LengthOf(bytes) < 0x1_0000;
      }
      if Whole(bytes, m, max) {
        FrameLength(m);
      }
    }
    if Verdict(bytes, max) == Pending {
      var m := bytes[2..] + seq(LengthOf(bytes) + 2 - |bytes|, i => 0);
      PaddedFrame(bytes, m);
      assert Begins(bytes, m, max);
    }
    if m :| Begins(bytes, m, max) {
      FrameLength(m);
      VerdictOfPrefix(m, max, |bytes|);
    }
  }

  lemma PaddedFrame(bytes: seq<byte>, m: seq<byte>)
    requires |bytes| >= 2 && |bytes| < LengthOf(bytes) + 2 && |m| == LengthOf(bytes) && |bytes[2..]| <= |m| && m[..|bytes| - 2] == bytes[2..]
    ensures |Frame(m)| == |m| + 2 && |bytes| < |Frame(m)| && bytes == Frame(m)[..|bytes|]
  {
    FrameLength(m);
    var f, n := Frame(m), |m|;
    assert BigEndian(n, 2) == BigEndian(n / 256, 1) + [n % 256];
    assert BigEndian(n / 256, 1) == [] + [n / 256 % 256];
    assert f[0] == bytes[0] && f[1] == bytes[1];
    assert f[2..|bytes|] == m[..|bytes| - 2];
    assert bytes == [bytes[0], bytes[1]] + bytes[2..];
    assert f[..|bytes|] == [f[0], f[1]] + f[2..|bytes|];
  }

  // ---------------------------------------------------------------- the reference

  /** The segments of each unfinished message, in order. */
  type Live = map<Key, seq<Segment>>

  /** The last of the segments came less than the timeout ago. */
  predicate Recent(w: seq<Segment>, timeout: nat, now: nat) { w != [] && timeout > 0 && now < w[|w| - 1].now + timeout }

  function Still(live: Live, timeout: nat, now: nat): Live { map k | k in live && Recent(live[k], timeout, now) :: live[k] }

  /** The segment and, before it, those of the unfinished message it may continue. */
  function Joined(live: Live, g: Segment): seq<Segment> { (if g.key in live then live[g.key] else []) + [g] }

  /** The last segment starts where the one before it ended, modulo 2^32. */
  predicate Follows(w: seq<Segment>) {
    |w| <= 1 ||
    w[|w| - 1].sequence == (w[|w| - 2].sequence + Min(|w[|w| - 2].payload|, 0xFFFF_FFFF)) % 0x1_0000_0000
  }

  /** What the collected bytes amount to, put in terms of frames. */
  ghost predicate Judges(bytes: seq<byte>, max: nat, r: Outcome) {
    if |bytes| < 2 || (exists m :: Begins(bytes, m, max)) then r == Pending
    else if exists m :: Whole(bytes, m, max) then r.Message? && Whole(bytes, r.bytes, max)
    else r == Rejected(InvalidFraming)
  }

  /** What is to come of a segment: `live` has nothing in it that is too old. */
  ghost predicate Answers(live: Live, limits: Limits, g: Segment, r: Outcome) {
    var w := Joined(live, g);
    if g.payload == [] then r == Pending
    else if g.key !in live && |live| >= limits.streams then r == Rejected(Capacity)
    else if !Follows(w) then r == Rejected(InvalidSequence)
    else if |Bytes(w)| > limits.message + 2 then r == Rejected(Oversize)
    else Judges(Bytes(w), limits.message, r)
  }

  /** Segments are kept while their message is unfinished. */
  function Kept(live: Live, g: Segment, r: Outcome): Live {
    if g.payload == [] || r == Rejected(Capacity) then live
    else if r == Pending then live[g.key := Joined(live, g)]
    else live - {g.key}
  }

  // ---------------------------------------------------------------- one segment

  ghost predicate Same(s: State, live: Live, limits: Limits) {
    && Traced(s, live) && limits == Limits(s.maxStreams, s.maxMessage, s.timeout)
    && forall k :: k in live ==> live[k] != [] && s.streams[k].updatedAt == live[k][|live[k]| - 1].now
  }

  lemma ExpireSame(s: State, live: Live, limits: Limits, now: nat)
    requires Same(s, live, limits)
    ensures Same(Expire(s, now), Still(live, limits.timeout, now), limits)
  {
    hide Contiguous;
    hide Bytes;
    var e, still := Expire(s, now), Still(live, limits.timeout, now);
    assert e.streams.Keys == still.Keys by {
      forall k ensures k in e.streams <==> k in still {}
    }
  }

  lemma FollowsIs(s: State, live: Live, limits: Limits, g: Segment)
    requires Same(s, live, limits)
    ensures Follows(Joined(live, g)) <==> g.sequence == StreamFor(s, g).next
  {
    hide Bytes;
    var w := Joined(live, g);
    if g.key in live {
      assert w[|w| - 2] == live[g.key][|live[g.key]| - 1];
    }
  }

  lemma VerdictJudges(bytes: seq<byte>, max: nat)
    ensures Judges(bytes, max, Verdict(bytes, max))
  {
    if |bytes| >= 2 {
      VerdictExact(bytes, max);
      hide Verdict;
      hide Begins;
      hide Whole;
      var r := Verdict(bytes, max);
      if r.Message? {
        assert r == Message(r.bytes);
        assert Whole(bytes, r.bytes, max);
      }
    }
  }

  lemma OutcomeAnswers(s: State, live: Live, limits: Limits, g: Segment)
    requires Same(s, live, limits)
    ensures Answers(live, limits, g, OutcomeOf(s, g))
  {
    hide Verdict;
    hide Contiguous;
    hide Judges;
    hide Follows;
    hide Bytes;
    assert |live| == |live.Keys| == |s.streams.Keys| == |s.streams|;
    FollowsIs(s, live, limits, g);
    assert Joined(live, g) == WithSegment(live, g);
    if g.sequence == StreamFor(s, g).next {
      GrowTraced(s, live, g);
      VerdictJudges(StreamFor(s, g).bytes + g.payload, s.maxMessage);
    }
  }

  lemma SettleSame(s: State, live: Live, limits: Limits, g: Segment)
    requires Same(s, live, limits)
    ensures Same(Settle(s, g), Kept(live, g, OutcomeOf(s, g)), limits)
  {
    hide Contiguous;
    hide Bytes;
    hide Verdict;
    assert Joined(live, g) == WithSegment(live, g);
    SettleTraced(s, live, g);
  }

  // ---------------------------------------------------------------- whole runs

  /** The outcomes of a run are answers of the reference, segment after segment. */
  ghost predicate AllAnswer(live: Live, limits: Limits, g: seq<Segment>, r: seq<Outcome>)
    decreases |g|
  {
    |r| == |g| &&
    (g == [] ||
     var still := Still(live, limits.timeout, g[0].now);
     Answers(still, limits, g[0], r[0]) && AllAnswer(Kept(still, g[0], r[0]), limits, g[1..], r[1..]))
  }

  lemma {:induction false} RunAnswers(s: State, live: Live, limits: Limits, g: seq<Segment>)
    requires Same(s, live, limits)
    ensures AllAnswer(live, limits, g, Outcomes(s, g))
    decreases |g|
  {
    hide Same;
    hide Answers;
    hide OutcomeOf;
    if g != [] {
      var e, still := Expire(s, g[0].now), Still(live, limits.timeout, g[0].now);
      ExpireSame(s, live, limits, g[0].now);
      OutcomeAnswers(e, still, limits, g[0]);
      SettleSame(e, still, limits, g[0]);
      RunAnswers(Push(s, g[0]), Kept(still, g[0], PushOutcome(s, g[0])), limits, g[1..]);
      assert Outcomes(s, g)[1..] == Outcomes(Push(s, g[0]), g[1..]);
    }
  }

  /**
   From an empty reassembler every outcome of every run is the reference's: a segment continues the unfinished message of
   its key only if that is recent, an old one no longer takes up room, and what comes back is decided by whether the
   segments together are a frame, begin one, or do neither.
   */
  lemma {:induction false} EveryOutcomeExact(limits: Limits, g: seq<Segment>)
    ensures AllAnswer(map[], limits, g, Outcomes(State(map[], limits.streams, limits.message, limits.timeout), g))
  {
    RunAnswers(State(map[], limits.streams, limits.message, limits.timeout), map[], limits, g);
  }
}
