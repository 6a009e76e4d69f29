/** Reassembly of length-prefixed DNS messages from TCP segments (section 4.2.2 of RFC 1035). */
module DnsTcp {
  import opened Text
  import Counting

  const WRAP: nat := 0x1_0000_0000

  datatype Key = Key(cgroup: nat, cookie: nat, direction: nat)

  datatype Stream = Stream(next: nat, updatedAt: nat, bytes: seq<byte>)

  datatype Error = Capacity | InvalidSequence | Oversize | InvalidFraming

  /** `Ok(None)`, `Ok(Some(message))` or an error. */
  datatype Outcome = Pending | Message(bytes: seq<byte>) | Rejected(error: Error)

  datatype State = State(streams: map<Key, Stream>, maxStreams: nat, maxMessage: nat, timeout: nat)

  datatype Segment = Segment(key: Key, sequence: nat, payload: seq<byte>, now: nat)

  /** `duration_since` is zero for an earlier instant. */
  function Since(now: nat, earlier: nat): nat { if now >= earlier then now - earlier else 0 }

  function Expire(s: State, now: nat): State {
    s.(streams := map k | k in s.streams && Since(now, s.streams[k].updatedAt) < s.timeout :: s.streams[k])
  }

  function Frame(message: seq<byte>): seq<byte> { BigEndian(|message|, 2) + message }

  function LengthOf(bytes: seq<byte>): nat
    requires |bytes| >= 2
  {
    256 * (bytes[0] as int) + bytes[1] as int
  }

  /** What the bytes collected so far amount to. */
  function Verdict(bytes: seq<byte>, maxMessage: nat): Outcome {
    if |bytes| < 2 then Pending
    else if LengthOf(bytes) == 0 || LengthOf(bytes) > maxMessage then Rejected(InvalidFraming)
    else if |bytes| < LengthOf(bytes) + 2 then Pending
    else if |bytes| != LengthOf(bytes) + 2 then Rejected(InvalidFraming)
    else Message(bytes[2..])
  }

  /** `wrapping_add` of the payload length. */
  function Advance(sequence: nat, length: nat): nat { (sequence + if length < WRAP then length else WRAP - 1) % WRAP }

  function StreamFor(s: State, g: Segment): Stream {
    if g.key in s.streams then s.streams[g.key] else Stream(g.sequence, g.now, [])
  }

  /** The outcome of a segment on a store where nothing is expired. */
  function OutcomeOf(s: State, g: Segment): Outcome {
    if g.payload == [] then Pending
    else if g.key !in s.streams && |s.streams| >= s.maxStreams then Rejected(Capacity)
    else
      var stream := StreamFor(s, g);
      if g.sequence != stream.next then Rejected(InvalidSequence)
      else if |stream.bytes| + |g.payload| > s.maxMessage + 2 then Rejected(Oversize)
      else Verdict(stream.bytes + g.payload, s.maxMessage)
  }

  /** A stream lives on only while its message is incomplete. */
  function Settle(s: State, g: Segment): State {
    if g.payload == [] || OutcomeOf(s, g) == Rejected(Capacity) then s
    else if OutcomeOf(s, g) == Pending then
      s.(streams := s.streams[g.key := Stream(Advance(g.sequence, |g.payload|), g.now, StreamFor(s, g).bytes + g.payload)])
    else s.(streams := s.streams - {g.key})
  }

  function PushOutcome(s: State, g: Segment): Outcome { OutcomeOf(Expire(s, g.now), g) }

  function Push(s: State, g: Segment): State { Settle(Expire(s, g.now), g) }

  // ---------------------------------------------------------------- every split of every frame

  /** The stream under `k` holds the first `off` bytes of the frame that starts at sequence number `start`. */
  ghost predicate Holding(s: State, k: Key, frame: seq<byte>, start: nat, off: nat, last: nat) {
    if off == 0 || off == |frame| then k !in s.streams
    else k in s.streams && off < |frame| && s.streams[k] == Stream((start + off) % WRAP, last, frame[..off])
  }

  predicate Transportable(message: seq<byte>, s: State) {
    0 < |message| <= s.maxMessage && |message| < 0x1_0000
  }

  lemma FrameLength(message: seq<byte>)
    requires |message| < 0x1_0000
    ensures |Frame(message)| == |message| + 2 && LengthOf(Frame(message)) == |message| && Frame(message)[2..] == message
  {
    var n := |message|;
    assert BigEndian(n, 2) == BigEndian(n / 256, 1) + [n % 256];
    assert BigEndian(n / 256, 1) == [] + [n / 256 % 256];
    assert Frame(message)[0] == n / 256 && Frame(message)[1] == n % 256;
  }

  /** A proper prefix of a frame is never complete and never malformed; the frame itself is the message. */
  lemma VerdictOfPrefix(message: seq<byte>, max: nat, off: nat)
    requires 0 < |message| <= max && |message| < 0x1_0000 && off <= |message| + 2
    ensures |Frame(message)| == |message| + 2
    ensures Verdict(Frame(message)[..off], max) == if off == |message| + 2 then Message(message) else Pending
  {
    FrameLength(message);
    var f := Frame(message);
    if off >= 2 {
      assert LengthOf(f[..off]) == LengthOf(f);
    }
    if off == |f| {
      assert f[..off] == f;
    }
  }

  lemma AdvanceAdds(start: nat, off: nat, length: nat)
    requires length < WRAP
    ensures Advance((start + off) % WRAP, length) == (start + off + length) % WRAP
  {
    var a := start + off;
    assert (a % WRAP + length) % WRAP == (a + length) % WRAP by {
      assert a == a / WRAP * WRAP + a % WRAP;
      assert a + length == a / WRAP * WRAP + (a % WRAP + length);
      ModShift(a / WRAP, a % WRAP + length);
    }
  }

  lemma ModShift(q: nat, r: nat)
    ensures (q * WRAP + r) % WRAP == r % WRAP
  {}

  lemma MineStep(s: State, g: Segment, message: seq<byte>, start: nat, off: nat, last: nat)
    requires Transportable(message, s) && Holding(s, g.key, Frame(message), start, off, last)
    requires g.payload != [] && off + |g.payload| <= |Frame(message)|
    requires g.payload == Frame(message)[off..off + |g.payload|] && g.sequence == (start + off) % WRAP
    requires off > 0 ==> Since(g.now, last) < s.timeout
    requires off == 0 ==> |Expire(s, g.now).streams| < s.maxStreams
    ensures PushOutcome(s, g) == if off + |g.payload| == |Frame(message)| then Message(message) else Pending
    ensures Holding(Push(s, g), g.key, Frame(message), start, off + |g.payload|, g.now)
  {
    hide Verdict;
    var f, n := Frame(message), |g.payload|;
    var e := Expire(s, g.now);
    VerdictOfPrefix(message, s.maxMessage, off + n);
    var stream := StreamFor(e, g);
    assert stream.bytes == f[..off];
    assert stream.bytes + g.payload == f[..off + n];
    assert g.sequence == stream.next;
    AdvanceAdds(start, off, n);
  }

  lemma OtherStep(s: State, g: Segment, k: Key, frame: seq<byte>, start: nat, off: nat, last: nat)
    requires Holding(s, k, frame, start, off, last) && g.key != k
    requires 0 < off < |frame| ==> Since(g.now, last) < s.timeout
    ensures Holding(Push(s, g), k, frame, start, off, last)
  {
    hide OutcomeOf;
  }

  /**
   The segments carry the rest of the frame, from `off` on, under key `k`: non-empty, in order, each within the
   timeout of the one before. Segments of other keys may stand anywhere between them.
   */
  ghost predicate Carries(g: seq<Segment>, k: Key, frame: seq<byte>, start: nat, off: nat, last: nat, timeout: nat)
    decreases |g|
  {
    if g == [] then off == |frame|
    else
      && (0 < off < |frame| ==> Since(g[0].now, last) < timeout)
      && if g[0].key == k then
           && g[0].payload != [] && off + |g[0].payload| <= |frame|
           && g[0].payload == frame[off..off + |g[0].payload|] && g[0].sequence == (start + off) % WRAP
           && Carries(g[1..], k, frame, start, off + |g[0].payload|, g[0].now, timeout)
         else Carries(g[1..], k, frame, start, off, last, timeout)
  }

  /** There is room for a new stream when the first segment of `k` arrives. */
  ghost predicate RoomFor(s: State, g: seq<Segment>, k: Key)
    decreases |g|
  {
    g != [] ==> if g[0].key == k then |Expire(s, g[0].now).streams| < s.maxStreams else RoomFor(Push(s, g[0]), g[1..], k)
  }

  function Outcomes(s: State, g: seq<Segment>): (r: seq<Outcome>)
    ensures |r| == |g|
    decreases |g|
  {
    if g == [] then [] else [PushOutcome(s, g[0])] + Outcomes(Push(s, g[0]), g[1..])
  }

  ghost predicate LastOf(g: seq<Segment>, k: Key, i: nat)
    requires i < |g|
  {
    forall j :: i < j < |g| ==> g[j].key != k
  }

  lemma {:induction false} NoMore(g: seq<Segment>, k: Key, frame: seq<byte>, start: nat, last: nat, timeout: nat)
    requires Carries(g, k, frame, start, |frame|, last, timeout)
    ensures forall i :: 0 <= i < |g| ==> g[i].key != k
    decreases |g|
  {
    if g != [] {
      NoMore(g[1..], k, frame, start, last, timeout);
      assert forall i :: 1 <= i < |g| ==> g[i] == g[1..][i - 1];
    }
  }

  lemma {:induction false} SomeMore(g: seq<Segment>, k: Key, frame: seq<byte>, start: nat, off: nat, last: nat, timeout: nat)
    requires Carries(g, k, frame, start, off, last, timeout) && off < |frame|
    ensures exists i :: 0 <= i < |g| && g[i].key == k
    decreases |g|
  {
    if g[0].key != k {
      SomeMore(g[1..], k, frame, start, off, last, timeout);
      var i :| 0 <= i < |g[1..]| && g[1..][i].key == k;
      assert g[i + 1].key == k;
    }
  }

  lemma {:induction false} ReassemblesFrom(s: State, g: seq<Segment>, k: Key, message: seq<byte>, start: nat, off: nat, last: nat)
    requires Transportable(message, s) && off <= |Frame(message)| && Holding(s, k, Frame(message), start, off, last)
    requires Carries(g, k, Frame(message), start, off, last, s.timeout) && (off == 0 ==> RoomFor(s, g, k))
    ensures forall i :: 0 <= i < |g| && g[i].key == k ==>
              Outcomes(s, g)[i] == if LastOf(g, k, i) then Message(message) else Pending
    decreases |g|
  {
    hide Push;
    hide PushOutcome;
    hide Holding;
    hide Frame;
    if g != [] {
      var f, t, rest := Frame(message), Push(s, g[0]), g[1..];
      KeepsLimits(s, g[0]);
      assert forall i :: 1 <= i < |g| ==> g[i] == rest[i - 1] && Outcomes(s, g)[i] == Outcomes(t, rest)[i - 1];
      var more := off + if g[0].key == k then |g[0].payload| else 0;
      var at := if g[0].key == k then g[0].now else last;
      if g[0].key == k {
        MineStep(s, g[0], message, start, off, last);
        if more == |f| {
          NoMore(rest, k, f, start, at, s.timeout);
          assert LastOf(g, k, 0);
        } else {
          SomeMore(rest, k, f, start, more, at, s.timeout);
          var i :| 0 <= i < |rest| && rest[i].key == k;
          assert g[i + 1].key == k;
          assert !LastOf(g, k, 0);
        }
      } else {
        OtherStep(s, g[0], k, f, start, off, last);
      }
      ReassemblesFrom(t, rest, k, message, start, more, at);
      forall i | 1 <= i < |g| ensures LastOf(g, k, i) <==> LastOf(rest, k, i - 1) {
        assert forall j :: i < j < |g| ==> g[j] == rest[j - 1];
        if LastOf(g, k, i) {
          forall j | i - 1 < j < |rest| ensures rest[j].key != k {
            assert g[j + 1].key != k;
          }
        }
      }
    }
  }

  lemma KeepsLimits(s: State, g: Segment)
    ensures Push(s, g).maxMessage == s.maxMessage && Push(s, g).timeout == s.timeout && Push(s, g).maxStreams == s.maxStreams
  {}

  /**
   However a message is split into segments, from whatever starting sequence number and whatever other streams
   do meanwhile, every segment but the last leaves it pending and the last one returns exactly the message.
   */
  lemma {:induction false} EverySplitReassembles(s: State, g: seq<Segment>, k: Key, message: seq<byte>, start: nat)
    requires Transportable(message, s) && k !in s.streams && RoomFor(s, g, k)
    requires Carries(g, k, Frame(message), start, 0, 0, s.timeout)
    ensures forall i :: 0 <= i < |g| && g[i].key == k ==>
              Outcomes(s, g)[i] == if LastOf(g, k, i) then Message(message) else Pending
  {
    FrameLength(message);
    ReassemblesFrom(s, g, k, message, start, 0, 0);
  }

  // ---------------------------------------------------------------- nothing else is ever returned

  /** The segments each stream has taken since it began. */
  type Taken = map<Key, seq<Segment>>

  function Bytes(g: seq<Segment>): seq<byte> {
    if g == [] then [] else Bytes(g[..|g| - 1]) + g[|g| - 1].payload
  }

  /** Each segment starts where the one before it ended, modulo 2^32. */
  ghost predicate Contiguous(g: seq<Segment>, k: Key, next: nat) {
    && g != [] && (forall i :: 0 <= i < |g| ==> g[i].key == k)
    && (forall i :: 0 < i < |g| ==> g[i].sequence == Advance(g[i - 1].sequence, |g[i - 1].payload|))
    && next == Advance(g[|g| - 1].sequence, |g[|g| - 1].payload|)
  }

  ghost predicate Traced(s: State, taken: Taken) {
    && taken.Keys == s.streams.Keys
    && forall k :: k in s.streams ==> Contiguous(taken[k], k, s.streams[k].next) && Bytes(taken[k]) == s.streams[k].bytes
  }

  /** The segments that made up the stream a segment arrives at, with that segment added. */
  function WithSegment(taken: Taken, g: Segment): seq<Segment> {
    (if g.key in taken then taken[g.key] else []) + [g]
  }

  /** `taken` after a segment: expired streams are dropped, the segment's own stream grows or ends. */
  function Track(s: State, taken: Taken, g: Segment): Taken {
    var live := map k | k in taken && k in Expire(s, g.now).streams :: taken[k];
    if g.payload == [] || PushOutcome(s, g) == Rejected(Capacity) then live
    else if PushOutcome(s, g) == Pending then live[g.key := WithSegment(live, g)]
    else live - {g.key}
  }

  lemma ExpireTraced(s: State, taken: Taken, now: nat)
    requires Traced(s, taken)
    ensures Traced(Expire(s, now), map k | k in taken && k in Expire(s, now).streams :: taken[k])
  {}

  lemma GrowTraced(s: State, taken: Taken, g: Segment)
    requires Traced(s, taken) && g.sequence == StreamFor(s, g).next
    ensures Contiguous(WithSegment(taken, g), g.key, Advance(g.sequence, |g.payload|))
    ensures Bytes(WithSegment(taken, g)) == StreamFor(s, g).bytes + g.payload
  {
    var was := if g.key in taken then taken[g.key] else [];
    var w := WithSegment(taken, g);
    assert w[..|w| - 1] == was;
    assert Bytes(was) == StreamFor(s, g).bytes;
  }

  lemma SettleTraced(s: State, taken: Taken, g: Segment)
    requires Traced(s, taken)
    ensures g.payload != [] && OutcomeOf(s, g) == Pending ==> Traced(Settle(s, g), taken[g.key := WithSegment(taken, g)])
    ensures g.payload != [] && OutcomeOf(s, g) != Pending && OutcomeOf(s, g) != Rejected(Capacity) ==> Traced(Settle(s, g), taken - {g.key})
  {
    hide Contiguous;
    hide Bytes;
    hide Verdict;
    if g.payload != [] && g.sequence == StreamFor(s, g).next {
      GrowTraced(s, taken, g);
    }
  }

  /** A message is returned only if the segments taken on that key since its stream began are contiguous and are its frame. */
  lemma OnlyWholeFrames(s: State, taken: Taken, g: Segment)
    requires Traced(s, taken)
    ensures Traced(Push(s, g), Track(s, taken, g))
    ensures PushOutcome(s, g).Message? ==>
              var live := map k | k in taken && k in Expire(s, g.now).streams :: taken[k];
              var w, m := WithSegment(live, g), PushOutcome(s, g).bytes;
              && Contiguous(w, g.key, Advance(g.sequence, |g.payload|)) && Bytes(w) == Frame(m)
              && 0 < |m| <= s.maxMessage
  {
    hide Contiguous;
    hide Bytes;
    var e := Expire(s, g.now);
    var live := map k | k in taken && k in e.streams :: taken[k];
    ExpireTraced(s, taken, g.now);
    SettleTraced(e, live, g);
    if PushOutcome(s, g).Message? {
      GrowTraced(e, live, g);
      FrameBack(StreamFor(e, g).bytes + g.payload, s.maxMessage);
    }
  }

  // ---------------------------------------------------------------- whole runs

  function Pushed(s: State, g: seq<Segment>): State {
    if g == [] then s else Push(Pushed(s, g[..|g| - 1]), g[|g| - 1])
  }

  /** The segments of `g` that carry something under `k`. */
  function Carrying(g: seq<Segment>, k: Key): seq<Segment> {
    if g == [] then []
    else
      var last := g[|g| - 1];
      Carrying(g[..|g| - 1], k) + (if last.key == k && last.payload != [] then [last] else [])
  }

  ghost predicate Suffix(a: seq<Segment>, b: seq<Segment>) { |a| <= |b| && b[|b| - |a|..] == a }

  /** What each stream has taken are the last segments of its key that carried something. */
  ghost predicate FromInput(taken: Taken, g: seq<Segment>) {
    forall k :: k in taken ==> Suffix(taken[k], Carrying(g, k))
  }

  lemma SuffixMore(a: seq<Segment>, b: seq<Segment>, g: Segment)
    requires Suffix(a, b)
    ensures Suffix(a + [g], b + [g]) && Suffix([g], b + [g]) && Suffix(a, b + [])
  {
    assert b + [] == b;
    assert (b + [g])[|b| - |a|..] == b[|b| - |a|..] + [g];
  }

  lemma CapacityMeansNew(s: State, g: Segment)
    requires OutcomeOf(s, g) == Rejected(Capacity)
    ensures g.key !in s.streams
  {}

  lemma {:induction false} CarryingMore(g: seq<Segment>, e: Segment, k: Key)
    ensures Carrying(g + [e], k) == Carrying(g, k) + (if e.key == k && e.payload != [] then [e] else [])
  {
    assert (g + [e])[..|g|] == g;
  }

  /** The segments kept for one key after a segment: none, those before, or those before and this one. */
  lemma TrackKey(s: State, taken: Taken, e: Segment, k: Key)
    requires k in Track(s, taken, e)
    ensures var r := Track(s, taken, e)[k];
            if k == e.key && e.payload != [] then r == [e] || (k in taken && r == taken[k] + [e]) else k in taken && r == taken[k]
  {
    hide OutcomeOf;
    hide Expire;
    if PushOutcome(s, e) == Rejected(Capacity) {
      CapacityMeansNew(Expire(s, e.now), e);
    }
  }

  lemma TrackFromInput(s: State, taken: Taken, g: seq<Segment>, e: Segment)
    requires FromInput(taken, g)
    ensures FromInput(Track(s, taken, e), g + [e])
  {
    hide Track;
    hide Suffix;
    hide Carrying;
    var r := Track(s, taken, e);
    forall k | k in r ensures Suffix(r[k], Carrying(g + [e], k)) {
      TrackKey(s, taken, e, k);
      CarryingMore(g, e, k);
      EmptySuffix(Carrying(g, k));
      SuffixMore(if k in taken then taken[k] else [], Carrying(g, k), e);
    }
  }

  lemma EmptySuffix(b: seq<Segment>)
    ensures Suffix([], b)
  {}

  lemma {:induction false} RunTraced(s: State, g: seq<Segment>) returns (taken: Taken)
    requires s.streams == map[]
    ensures Traced(Pushed(s, g), taken) && FromInput(taken, g) && Pushed(s, g).maxMessage == s.maxMessage
    decreases |g|
  {
    taken := map[];
    if g != [] {
      hide Traced;
      hide FromInput;
      hide Track;
      hide Push;
      var front, e := g[..|g| - 1], g[|g| - 1];
      var before := RunTraced(s, front);
      OnlyWholeFrames(Pushed(s, front), before, e);
      TrackFromInput(Pushed(s, front), before, front, e);
      KeepsLimits(Pushed(s, front), e);
      assert g == front + [e];
      taken := Track(Pushed(s, front), before, e);
    }
  }

  lemma {:induction false} FramedByInput(s: State, g: seq<Segment>, i: nat) returns (n: nat)
    requires s.streams == map[] && i < |g| && PushOutcome(Pushed(s, g[..i]), g[i]).Message?
    ensures var m, mine := PushOutcome(Pushed(s, g[..i]), g[i]).bytes, Carrying(g[..i + 1], g[i].key);
            && 0 < n <= |mine| && 0 < |m| <= s.maxMessage
            && Bytes(mine[|mine| - n..]) == Frame(m)
            && Contiguous(mine[|mine| - n..], g[i].key, Advance(g[i].sequence, |g[i].payload|))
  {
    hide Contiguous;
    hide Bytes;
    hide Push;
    hide Traced;
    hide Frame;
    hide Pushed;
    hide OutcomeOf;
    hide Advance;
    hide Carrying;
    hide FromInput;
    hide WithSegment;
    var t, e := Pushed(s, g[..i]), g[i];
    var taken := RunTraced(s, g[..i]);
    OnlyWholeFrames(t, taken, e);
    var live := map k | k in taken && k in Expire(t, e.now).streams :: taken[k];
    MessageCarries(Expire(t, e.now), e);
    hide Expire;
    WithSuffix(taken, live, g[..i], e);
    assert g[..i] + [e] == g[..i + 1];
    n := |WithSegment(live, e)|;
    SuffixTail(WithSegment(live, e), Carrying(g[..i + 1], e.key));
  }

  lemma {:induction false} WithSuffix(taken: Taken, live: Taken, g: seq<Segment>, e: Segment)
    requires FromInput(taken, g) && e.payload != [] && (forall k :: k in live ==> k in taken && live[k] == taken[k])
    ensures Suffix(WithSegment(live, e), Carrying(g + [e], e.key)) && |WithSegment(live, e)| > 0
  {
    hide Suffix;
    CarryingMore(g, e, e.key);
    hide Carrying;
    EmptySuffix(Carrying(g, e.key));
    SuffixMore(if e.key in live then live[e.key] else [], Carrying(g, e.key), e);
  }

  /**
   Nothing else is ever returned: in every run of an empty reassembler, a message that comes back at segment `i` is
   framed by the last `n` segments of that key that carried something, and these follow one another without a gap.
   */
  lemma {:induction false} OnlyInputFrames(s: State, g: seq<Segment>, i: nat) returns (n: nat)
    requires s.streams == map[] && i < |g| && Outcomes(s, g)[i].Message?
    ensures var m, mine := Outcomes(s, g)[i].bytes, Carrying(g[..i + 1], g[i].key);
            && 0 < n <= |mine| && 0 < |m| <= s.maxMessage
            && Bytes(mine[|mine| - n..]) == Frame(m)
            && Contiguous(mine[|mine| - n..], g[i].key, Advance(g[i].sequence, |g[i].payload|))
  {
    hide Outcomes;
    hide Contiguous;
    hide Bytes;
    hide Frame;
    hide Advance;
    hide Pushed;
    hide PushOutcome;
    hide Carrying;
    OutcomesAt(s, g, i);
    n := FramedByInput(s, g, i);
  }

  lemma MessageCarries(s: State, g: Segment)
    requires OutcomeOf(s, g).Message?
    ensures g.payload != []
  {}

  lemma SuffixTail(a: seq<Segment>, b: seq<Segment>)
    requires Suffix(a, b)
    ensures |a| <= |b| && b[|b| - |a|..] == a
  {}

  lemma {:induction false} OutcomesAt(s: State, g: seq<Segment>, i: nat)
    requires i < |g|
    ensures Outcomes(s, g)[i] == PushOutcome(Pushed(s, g[..i]), g[i])
    decreases |g|
  {
    hide Push;
    hide PushOutcome;
    if i > 0 {
      OutcomesAt(Push(s, g[0]), g[1..], i - 1);
      PushedFirst(s, g[..i]);
      assert g[..i][1..] == g[1..][..i - 1];
    }
  }

  lemma {:induction false} PushedFirst(s: State, g: seq<Segment>)
    requires g != []
    ensures Pushed(s, g) == Pushed(Push(s, g[0]), g[1..])
    decreases |g|
  {
    hide Push;
    if |g| == 1 {
      assert g[..0] == [] && g[1..] == [];
      assert Pushed(s, g[..0]) == s;
    } else {
      PushedFirst(s, g[..|g| - 1]);
      assert g[..|g| - 1][1..] == g[1..][..|g| - 2];
    }
  }

  lemma FrameBack(bytes: seq<byte>, max: nat)
    requires Verdict(bytes, max).Message?
    ensures bytes == Frame(Verdict(bytes, max).bytes) && 0 < |Verdict(bytes, max).bytes| <= max
  {
    var n := LengthOf(bytes);
    assert BigEndian(n, 2) == BigEndian(n / 256, 1) + [n % 256];
    assert BigEndian(n / 256, 1) == [] + [n / 256 % 256];
    assert bytes == bytes[..2] + bytes[2..];
  }

  // ---------------------------------------------------------------- the object

  class TcpDnsReassembler {
    var streams: map<Key, Stream>
    const maxStreams: nat
    const maxMessage: nat
    const timeout: nat

    function View(): State
      reads this
    {
      State(streams, maxStreams, maxMessage, timeout)
    }

    constructor (maxStreams: nat, maxMessage: nat, timeout: nat)
      ensures View() == State(map[], maxStreams, maxMessage, timeout)
    {
      this.maxStreams, this.maxMessage, this.timeout := maxStreams, maxMessage, timeout;
      streams := map[];
    }

    method ExpireAt(now: nat) returns (dropped: nat)
      modifies this
      ensures View() == Expire(old(View()), now) && dropped == |old(streams)| - |streams|
    {
      var before := |streams|;
      ghost var was := streams;
      streams := map k | k in streams && Since(now, streams[k].updatedAt) < timeout :: streams[k];
      Counting.SubsetSize(streams.Keys, was.Keys);
      assert |was| == |was.Keys| && |streams| == |streams.Keys|;
      dropped := before - |streams|;
    }

    method PushSegment(key: Key, sequence: nat, payload: seq<byte>, now: nat) returns (r: Outcome)
      modifies this
      ensures r == PushOutcome(old(View()), Segment(key, sequence, payload, now))
      ensures View() == Push(old(View()), Segment(key, sequence, payload, now))
    {
      var _ := ExpireAt(now);
      ghost var e, g := View(), Segment(key, sequence, payload, now);
      if payload == [] {
        return Pending;
      }
      if key !in streams && |streams| >= maxStreams {
        return Rejected(Capacity);
      }
      var stream := if key in streams then streams[key] else Stream(sequence, now, []);
      if sequence != stream.next {
        streams := streams - {key};
        return Rejected(InvalidSequence);
      }
      if |stream.bytes| + |payload| > maxMessage + 2 {
        streams := streams - {key};
        return Rejected(Oversize);
      }
      stream := Stream(Advance(sequence, |payload|), now, stream.bytes + payload);
      streams := streams[key := stream];
      if |stream.bytes| < 2 {
        return Pending;
      }
      var length := LengthOf(stream.bytes);
      if length == 0 || length > maxMessage {
        streams := streams - {key};
        Counting.RemoveAdded(e.streams, key, stream);
        return Rejected(InvalidFraming);
      }
      if |stream.bytes| < length + 2 {
        return Pending;
      }
      var complete := |stream.bytes| == length + 2;
      streams := streams - {key};
      Counting.RemoveAdded(e.streams, key, stream);
      return if complete then Message(stream.bytes[2..]) else Rejected(InvalidFraming);
    }
  }
}
