/** Names on the wire, written out or compressed in any way (sections 3.1 and 4.1.4 of RFC 1035), and when they decode. */
module DnsWireName {
  import opened Text
  import opened DnsName

  /** The bytes `w` stand in `b` at `o`. */
  ghost predicate Holds(b: seq<byte>, o: nat, w: seq<byte>) {
    o + |w| <= |b| && forall i :: 0 <= i < |w| ==> b[o + i] == w[i]
  }

  lemma HoldsSplit(b: seq<byte>, o: nat, v: seq<byte>, w: seq<byte>)
    requires Holds(b, o, v + w)
    ensures Holds(b, o, v) && Holds(b, o + |v|, w)
  {
    var all := v + w;
    forall i | 0 <= i < |v| ensures b[o + i] == v[i] {
      assert all[i] == v[i];
    }
    forall i | 0 <= i < |w| ensures b[o + |v| + i] == w[i] {
      assert all[|v| + i] == w[i];
    }
  }

  lemma HoldsSlice(b: seq<byte>, o: nat, w: seq<byte>)
    requires Holds(b, o, w)
    ensures o + |w| <= |b| && b[o..o + |w|] == w
  {}

  lemma HoldsFirst(b: seq<byte>, o: nat, w: seq<byte>)
    requires Holds(b, o, w) && w != []
    ensures o < |b| && b[o] == w[0] && (|w| > 1 ==> o + 1 < |b| && b[o + 1] == w[1])
  {}

  // ---------------------------------------------------------------- names

  /** A name as its labels, in any case; at most 253 characters once joined. */
  ghost predicate ValidLabels(labels: seq<seq<byte>>) {
    && labels != [] && (forall l :: l in labels ==> ValidLabel(l))
    && |Join(labels, DOT)| <= 253
  }

  /** A label after its length byte. */
  function WireLabel(l: seq<byte>): seq<byte> {
    var length: byte := if |l| <= 63 then |l| else 0;
    [length] + l
  }

  const ZERO: seq<byte> := [0]

  function WireName(labels: seq<seq<byte>>): seq<byte> {
    if labels == [] then ZERO else WireLabel(labels[0]) + WireName(labels[1..])
  }

  function Lowered(labels: seq<seq<byte>>): (r: seq<seq<byte>>)
    ensures |r| == |labels| && forall i :: 0 <= i < |r| ==> r[i] == LowerAll(labels[i])
  {
    if labels == [] then [] else [LowerAll(labels[0])] + Lowered(labels[1..])
  }

  lemma {:induction false} LowerValid(l: seq<byte>)
    requires ValidLabel(l)
    ensures ValidLabel(LowerAll(l)) && forall c :: c in LowerAll(l) ==> !IsUpper(c) && c < 128 && c != DOT
  {
    forall c | c in LowerAll(l) ensures IsLabelByte(c) && !IsUpper(c) && c < 128 && c != DOT {
      var i :| 0 <= i < |l| && LowerAll(l)[i] == c;
      assert l[i] in l;
    }
  }

  lemma {:induction false} JoinShape(labels: seq<seq<byte>>)
    requires labels != [] && forall l :: l in labels ==> ValidLabel(l)
    ensures var text := Join(Lowered(labels), DOT);
            && |text| == |Join(labels, DOT)| && |text| > 0 && text[|text| - 1] != DOT
            && forall c :: c in text ==> !IsUpper(c) && c < 128
  {
    LowerValid(labels[0]);
    if |labels| > 1 {
      var rest := labels[1..];
      JoinShape(rest);
      assert Lowered(labels)[1..] == Lowered(rest);
    }
  }

  /** The lower-cased labels of a valid name join to a canonical name. */
  lemma {:induction false} LoweredCanonical(labels: seq<seq<byte>>)
    requires ValidLabels(labels)
    ensures Canonical(Join(Lowered(labels), DOT))
  {
    JoinShape(labels);
    var low := Lowered(labels);
    forall l | l in low ensures ValidLabel(l) && DOT !in l {
      var i :| 0 <= i < |labels| && low[i] == l;
      assert labels[i] in labels;
      LowerValid(labels[i]);
    }
    SplitJoin(low, DOT);
  }

  lemma LabelHolds(b: seq<byte>, o: nat, l: seq<byte>)
    requires |l| <= 63 && Holds(b, o, WireLabel(l))
    ensures o + 1 + |l| <= |b| && b[o] == |l| && b[o + 1..o + 1 + |l|] == l
  {
    var w := WireLabel(l);
    HoldsSlice(b, o, w);
    assert b[o] == w[0];
    assert b[o + 1..o + 1 + |l|] == b[o..o + |w|][1..] == w[1..] == l;
  }

  /** A label as far as its length and characters go. */
  predicate LabelLike(l: seq<byte>) { 0 < |l| <= 63 && forall c :: c in l ==> IsLabelByte(c) }

  lemma {:induction false} LabelToken(b: seq<byte>, o: nat, l: seq<byte>)
    requires LabelLike(l) && Holds(b, o, WireLabel(l))
    ensures TokenAt(b, o) == Take(o + 1 + |l|) && LabelAt(b, o, o + 1 + |l|) == LowerAll(l)
  {
    hide Holds;
    hide LowerAll;
    hide WireLabel;
    LabelHolds(b, o, l);
    forall i | o < i < o + 1 + |l| ensures IsLabelByte(b[i]) {
      assert b[i] == b[o + 1..o + 1 + |l|][i - o - 1];
      assert b[i] in l;
    }
  }

  lemma ZeroToken(b: seq<byte>, o: nat)
    requires o < |b| && b[o] == 0
    ensures TokenAt(b, o) == Stop
  {}

  /** A compression pointer. */
  function PointerBytes(at: nat): seq<byte>
    requires at < 0x4000
  {
    [0xC0 + at / 256, at % 256]
  }

  lemma PointerToken(b: seq<byte>, o: nat, at: nat)
    requires at < 0x4000 && at < o && Holds(b, o, PointerBytes(at))
    ensures TokenAt(b, o) == Jump(at)
  {
    HoldsFirst(b, o, PointerBytes(at));
    assert PointerTo(b[o], b[o + 1]) == at;
  }

  // ---------------------------------------------------------------- any form of a name

  /** A pointer to `at` stands at `o`. */
  ghost predicate PointsTo(b: seq<byte>, o: nat, at: nat) { at < o && at < 0x4000 && Holds(b, o, PointerBytes(at)) }

  /**
   The name `labels` stands at `o` and ends before `end`: a zero byte, a label followed by the rest, or a pointer to an
   earlier place where the rest stands in any of these forms. Reading it takes `n` steps.
   */
  ghost predicate Stands(b: seq<byte>, o: nat, labels: seq<seq<byte>>, n: nat, end: nat)
    decreases n
  {
    n > 0 &&
    (|| (labels == [] && n == 1 && end == o + 1 && Holds(b, o, ZERO))
     || (labels != [] && LabelLike(labels[0]) && Holds(b, o, WireLabel(labels[0])) && Stands(b, o + 1 + |labels[0]|, labels[1..], n - 1, end))
     || (end == o + 2 && exists at, m, e :: m + 1 == n && PointsTo(b, o, at) && Stands(b, at, labels, m, e)))
  }

  lemma {:induction false} NoSteps(b: seq<byte>, o: nat, labels: seq<seq<byte>>, next: Option<nat>)
    ensures Decode(b, o, labels, next, 0) == Err(Compression)
  {}

  lemma {:induction false} DecodeStop(b: seq<byte>, o: nat, before: seq<seq<byte>>, next: Option<nat>, steps: nat)
    requires steps > 0 && Holds(b, o, ZERO)
    ensures Decode(b, o, before, next, steps) == Finish(before, Or(next, o + 1))
  {
    hide TokenAt;
    hide Finish;
    hide Decode;
    HoldsFirst(b, o, ZERO);
    ZeroToken(b, o);
    DecodeOnce(b, o, before, next, steps);
  }

  lemma {:induction false} DecodeLabel(
    b: seq<byte>, o: nat, l: seq<byte>, before: seq<seq<byte>>, next: Option<nat>, steps: nat)
    requires steps > 0 && LabelLike(l) && Holds(b, o, WireLabel(l))
    ensures Decode(b, o, before, next, steps) == Decode(b, o + 1 + |l|, before + [LowerAll(l)], next, steps - 1)
  {
    hide TokenAt;
    hide LabelAt;
    hide Finish;
    hide Holds;
    hide LabelLike;
    hide Decode;
    LabelToken(b, o, l);
    DecodeOnce(b, o, before, next, steps);
  }

  lemma {:induction false} DecodePointer(
    b: seq<byte>, o: nat, at: nat, before: seq<seq<byte>>, next: Option<nat>, steps: nat)
    requires steps > 0 && PointsTo(b, o, at)
    ensures Decode(b, o, before, next, steps) == Decode(b, at, before, Some(Or(next, o + 2)), steps - 1)
  {
    hide TokenAt;
    hide LabelAt;
    hide Finish;
    hide Holds;
    hide Decode;
    PointerToken(b, o, at);
    DecodeOnce(b, o, before, next, steps);
  }

  /** Decoding takes the steps of the form it meets, and no more are allowed than given. */
  lemma {:induction false} DecodeStands(
    b: seq<byte>, o: nat, labels: seq<seq<byte>>, before: seq<seq<byte>>, next: Option<nat>, steps: nat, n: nat, end: nat)
    requires Stands(b, o, labels, n, end)
    ensures Decode(b, o, before, next, steps)
         == if n <= steps then Finish(before + Lowered(labels), Or(next, end)) else Err(Compression)
    decreases n
  {
    hide Finish;
    hide Holds;
    hide PointsTo;
    hide LabelLike;
    hide Decode;
    if steps == 0 {
      NoSteps(b, o, before, next);
    } else if labels == [] && n == 1 && end == o + 1 && Holds(b, o, ZERO) {
      DecodeStop(b, o, before, next, steps);
      assert before + Lowered(labels) == before;
    } else if labels != [] && LabelLike(labels[0]) && Holds(b, o, WireLabel(labels[0])) && Stands(b, o + 1 + |labels[0]|, labels[1..], n - 1, end) {
      var l, rest := labels[0], labels[1..];
      DecodeLabel(b, o, l, before, next, steps);
      DecodeStands(b, o + 1 + |l|, rest, before + [LowerAll(l)], next, steps - 1, n - 1, end);
      assert before + [LowerAll(l)] + Lowered(rest) == before + Lowered(labels);
    } else {
      var at, m, e :| m + 1 == n && PointsTo(b, o, at) && Stands(b, at, labels, m, e);
      DecodePointer(b, o, at, before, next, steps);
      DecodeStands(b, at, labels, before, Some(Or(next, o + 2)), steps - 1, n - 1, e);
    }
  }

  /** However it is compressed, a valid name decodes to its lower-cased form exactly when it takes at most 16 steps. */
  lemma {:induction false} CompressedNameExact(b: seq<byte>, o: nat, labels: seq<seq<byte>>, n: nat, end: nat)
    requires ValidLabels(labels) && Stands(b, o, labels, n, end)
    ensures DecodeName(b, o) == if n <= MAX_STEPS then Ok(Decoded(Join(Lowered(labels), DOT), end)) else Err(Compression)
  {
    hide Decode;
    hide Stands;
    DecodeStands(b, o, labels, [], None, MAX_STEPS, n, end);
    assert [] + Lowered(labels) == Lowered(labels);
    LoweredCanonical(labels);
  }

  // ---------------------------------------------------------------- names written out, and after labels

  function WireLabels(labels: seq<seq<byte>>): seq<byte> {
    if labels == [] then [] else WireLabel(labels[0]) + WireLabels(labels[1..])
  }

  ghost predicate AllValid(labels: seq<seq<byte>>) { forall l :: l in labels ==> ValidLabel(l) }

  /** Labels written out before a place where the rest of the name stands. */
  lemma {:induction false} PrefixStands(b: seq<byte>, o: nat, prefix: seq<seq<byte>>, rest: seq<seq<byte>>, n: nat, end: nat)
    requires AllValid(prefix) && Holds(b, o, WireLabels(prefix)) && Stands(b, o + |WireLabels(prefix)|, rest, n, end)
    ensures Stands(b, o, prefix + rest, |prefix| + n, end)
    decreases |prefix|
  {
    hide Holds;
    if prefix == [] {
      assert prefix + rest == rest;
    } else {
      var l, more, all := prefix[0], prefix[1..], prefix + rest;
      assert l in prefix;
      HoldsSplit(b, o, WireLabel(l), WireLabels(more));
      PrefixStands(b, o + |WireLabel(l)|, more, rest, n, end);
      assert all[0] == l && all[1..] == more + rest;
    }
  }

  lemma Grouped(a: seq<byte>, b: seq<byte>, c: seq<byte>)
    ensures a + (b + c) == (a + b) + c
  {}

  lemma {:induction false} WireNameParts(labels: seq<seq<byte>>, skip: nat)
    requires skip <= |labels|
    ensures WireName(labels) == WireLabels(labels[..skip]) + WireName(labels[skip..])
    decreases skip
  {
    hide WireLabel;
    if skip == 0 {
      assert labels[0..] == labels && labels[..0] == [];
    } else {
      var first, rest, part := labels[0], labels[1..], labels[..skip];
      WireNameParts(rest, skip - 1);
      assert part[0] == first && part[1..] == rest[..skip - 1] && rest[skip - 1..] == labels[skip..];
      Grouped(WireLabel(first), WireLabels(part[1..]), WireName(labels[skip..]));
    }
  }

  lemma {:induction false} ZeroStands(b: seq<byte>, o: nat)
    requires Holds(b, o, ZERO)
    ensures Stands(b, o, [], 1, o + 1)
  {}

  /** A name written out stands at its place. */
  lemma {:induction false} WholeStands(b: seq<byte>, o: nat, labels: seq<seq<byte>>)
    requires AllValid(labels) && Holds(b, o, WireName(labels))
    ensures Stands(b, o, labels, |labels| + 1, o + |WireName(labels)|)
    decreases |labels|
  {
    hide Holds;
    if labels == [] {
      ZeroStands(b, o);
    } else {
      var l, rest := labels[0], labels[1..];
      assert l in labels && forall m :: m in rest ==> m in labels;
      HoldsSplit(b, o, WireLabel(l), WireName(rest));
      WholeStands(b, o + |WireLabel(l)|, rest);
    }
  }

  /** And each of its suffixes stands inside it. */
  lemma {:induction false} SuffixStands(b: seq<byte>, o: nat, labels: seq<seq<byte>>, skip: nat)
    requires AllValid(labels) && Holds(b, o, WireName(labels)) && skip <= |labels|
    ensures Stands(b, o + |WireLabels(labels[..skip])|, labels[skip..], |labels| - skip + 1, o + |WireName(labels)|)
  {
    hide Holds;
    hide Stands;
    WireNameParts(labels, skip);
    HoldsSplit(b, o, WireLabels(labels[..skip]), WireName(labels[skip..]));
    WholeStands(b, o + |WireLabels(labels[..skip])|, labels[skip..]);
  }

  lemma PointerStands(b: seq<byte>, o: nat, at: nat, labels: seq<seq<byte>>, n: nat, e: nat)
    requires PointsTo(b, o, at) && Stands(b, at, labels, n, e)
    ensures Stands(b, o, labels, n + 1, o + 2)
  {}

  /** Written out in full, a valid name decodes to its lower-cased form exactly when it has at most 15 labels. */
  lemma {:induction false} PlainNameExact(b: seq<byte>, o: nat, labels: seq<seq<byte>>)
    requires ValidLabels(labels) && Holds(b, o, WireName(labels))
    ensures DecodeName(b, o)
         == if |labels| <= 15 then Ok(Decoded(Join(Lowered(labels), DOT), o + |WireName(labels)|)) else Err(Compression)
  {
    hide Stands;
    hide DecodeName;
    SuffixStands(b, o, labels, 0);
    assert labels[..0] == [] && labels[0..] == labels;
    CompressedNameExact(b, o, labels, |labels| + 1, o + |WireName(labels)|);
  }

  /** As labels and a pointer to a suffix of a name written out earlier, exactly when it has at most 14 labels in all. */
  lemma {:induction false} PointerNameExact(b: seq<byte>, o: nat, prefix: seq<seq<byte>>, at: nat, labels: seq<seq<byte>>, skip: nat)
    requires AllValid(labels) && Holds(b, at, WireName(labels)) && skip <= |labels| && ValidLabels(prefix + labels[skip..])
    requires var to := at + |WireLabels(labels[..skip])|;
             Holds(b, o, WireLabels(prefix)) && PointsTo(b, o + |WireLabels(prefix)|, to)
    ensures var name := prefix + labels[skip..];
            DecodeName(b, o) == if |name| <= 14 then Ok(Decoded(Join(Lowered(name), DOT), o + |WireLabels(prefix)| + 2)) else Err(Compression)
  {
    hide Stands;
    hide DecodeName;
    hide Holds;
    hide PointsTo;
    var to, p := at + |WireLabels(labels[..skip])|, o + |WireLabels(prefix)|;
    SuffixStands(b, at, labels, skip);
    PointerStands(b, p, to, labels[skip..], |labels| - skip + 1, at + |WireName(labels)|);
    AllValidParts(prefix, labels[skip..]);
    PrefixStands(b, o, prefix, labels[skip..], |labels| - skip + 2, p + 2);
    CompressedNameExact(b, o, prefix + labels[skip..], |prefix| + |labels| - skip + 2, p + 2);
  }

  lemma AllValidParts(prefix: seq<seq<byte>>, rest: seq<seq<byte>>)
    requires ValidLabels(prefix + rest)
    ensures AllValid(prefix)
  {
    assert forall l :: l in prefix ==> l in prefix + rest;
  }
}
