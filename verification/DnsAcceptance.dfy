/** Exactly which bytes the DNS parser accepts, and what it reads from the header and the question. */
module DnsAcceptance {
  import opened Text
  import opened DnsCodes
  import opened DnsName
  import opened DnsMessage
  import opened DnsWireName
  import opened DnsRoundTrip

  // ---------------------------------------------------------------- names

  lemma TokenBack(b: seq<byte>, o: nat)
    ensures var t := TokenAt(b, o);
            && (t.Stop? ==> Holds(b, o, ZERO))
            && (t.Jump? ==> PointsTo(b, o, t.to))
            && (t.Take? ==> o + 1 < t.end <= |b| && LabelLike(b[o + 1..t.end]) && Holds(b, o, WireLabel(b[o + 1..t.end]))
                            && LabelAt(b, o, t.end) == LowerAll(b[o + 1..t.end]))
  {
    var t := TokenAt(b, o);
    if t.Take? {
      var l := b[o + 1..t.end];
      forall c | c in l ensures IsLabelByte(c) {
        var i :| 0 <= i < |l| && l[i] == c;
        assert b[o + 1 + i] == c;
      }
    }
    if t.Jump? {
      assert PointerBytes(t.to) == [b[o], b[o + 1]];
    }
  }

  /** A label is one to 63 letters, digits and hyphens, without a hyphen at either end. */
  lemma LabelExact(l: seq<byte>)
    ensures ValidLabel(l) <==>
            && 1 <= |l| <= 63 && l[0] != 45 && l[|l| - 1] != 45
            && forall i :: 0 <= i < |l| ==> 97 <= l[i] <= 122 || 65 <= l[i] <= 90 || 48 <= l[i] <= 57 || l[i] == 45
  {
    if 1 <= |l| && forall i :: 0 <= i < |l| ==> 97 <= l[i] <= 122 || 65 <= l[i] <= 90 || 48 <= l[i] <= 57 || l[i] == 45 {
      assert forall c :: c in l ==> IsLabelByte(c);
    }
    if ValidLabel(l) {
      forall i | 0 <= i < |l| ensures 97 <= l[i] <= 122 || 65 <= l[i] <= 90 || 48 <= l[i] <= 57 || l[i] == 45 {
        assert l[i] in l;
      }
    }
  }

  /** A name that decodes stands there in some form, and takes no more steps than it was given. */
  lemma {:induction false} DecodedStands(b: seq<byte>, o: nat, before: seq<seq<byte>>, next: Option<nat>, steps: nat)
    returns (labels: seq<seq<byte>>, n: nat, end: nat)
    requires Decode(b, o, before, next, steps).Ok?
    ensures n <= steps && Stands(b, o, labels, n, end)
    ensures Decode(b, o, before, next, steps) == Finish(before + Lowered(labels), Or(next, end))
    decreases steps
  {
    hide Decode;
    hide TokenAt;
    hide LabelAt;
    hide Finish;
    hide Holds;
    hide LabelLike;
    labels, n, end := [], 1, o + 1;
    if steps == 0 {
      NoSteps(b, o, before, next);
    } else {
      DecodeOnce(b, o, before, next, steps);
      TokenBack(b, o);
      match TokenAt(b, o)
      case Stop =>
        assert before + Lowered(labels) == before;
      case Jump(to) =>
        var m, e;
        labels, m, e := DecodedStands(b, to, before, Some(Or(next, o + 2)), steps - 1);
        n, end := m + 1, o + 2;
      case Take(stop) =>
        var l := b[o + 1..stop];
        var rest, m, e := DecodedStands(b, stop, before + [LowerAll(l)], next, steps - 1);
        labels, n, end := [l] + rest, m + 1, e;
        assert labels[1..] == rest;
        assert before + [LowerAll(l)] + Lowered(rest) == before + Lowered(labels);
      case Fail(_) =>
    }
  }

  lemma {:induction false} StandsLabelLike(b: seq<byte>, o: nat, labels: seq<seq<byte>>, n: nat, end: nat)
    requires Stands(b, o, labels, n, end)
    ensures forall l :: l in labels ==> LabelLike(l)
    decreases n
  {
    hide Holds;
    hide LabelLike;
    if labels != [] && LabelLike(labels[0]) && Holds(b, o, WireLabel(labels[0])) && Stands(b, o + 1 + |labels[0]|, labels[1..], n - 1, end) {
      StandsLabelLike(b, o + 1 + |labels[0]|, labels[1..], n - 1, end);
      assert labels == [labels[0]] + labels[1..];
    } else if end == o + 2 && exists at, m, e :: m + 1 == n && PointsTo(b, o, at) && Stands(b, at, labels, m, e) {
      var at, m, e :| m + 1 == n && PointsTo(b, o, at) && Stands(b, at, labels, m, e);
      StandsLabelLike(b, at, labels, m, e);
    }
  }

  lemma {:induction false} LowerLike(l: seq<byte>)
    requires LabelLike(l)
    ensures DOT !in LowerAll(l) && (ValidLabel(LowerAll(l)) ==> ValidLabel(l))
  {
    forall c | c in LowerAll(l) ensures c != DOT {
      var i :| 0 <= i < |l| && LowerAll(l)[i] == c;
      assert l[i] in l;
    }
  }

  lemma {:induction false} CanonicalValid(labels: seq<seq<byte>>)
    requires (forall l :: l in labels ==> LabelLike(l)) && Canonical(Join(Lowered(labels), DOT))
    ensures ValidLabels(labels)
  {
    hide LabelLike;
    var low := Lowered(labels);
    assert labels != [];
    forall p | p in low ensures DOT !in p {
      var i :| 0 <= i < |low| && low[i] == p;
      assert labels[i] in labels;
      LowerLike(labels[i]);
    }
    SplitJoin(low, DOT);
    forall l | l in labels ensures ValidLabel(l) {
      var i :| 0 <= i < |labels| && labels[i] == l;
      assert low[i] in low;
      LowerLike(l);
    }
    JoinShape(labels);
  }

  /** A name is read if and only if a valid name stands there in a form of at most 16 steps; it is read as that name. */
  lemma {:induction false} NameExact(b: seq<byte>, o: nat)
    ensures DecodeName(b, o).Ok? <==> exists labels, end: nat :: NameAt(b, o, labels, end)
    ensures forall labels, end: nat :: NameAt(b, o, labels, end) ==> DecodeName(b, o) == Ok(Decoded(NameText(labels), end))
  {
    hide Decode;
    hide Stands;
    hide ValidLabels;
    if DecodeName(b, o).Ok? {
      var labels, n, end := DecodedStands(b, o, [], None, MAX_STEPS);
      assert [] + Lowered(labels) == Lowered(labels);
      StandsLabelLike(b, o, labels, n, end);
      CanonicalValid(labels);
      assert NameAt(b, o, labels, end);
    }
    forall labels, end: nat | NameAt(b, o, labels, end) ensures DecodeName(b, o) == Ok(Decoded(NameText(labels), end)) {
      NameAtDecodes(b, o, labels, end);
    }
  }

  // ---------------------------------------------------------------- records

  /** How many addresses and aliases have been kept. */
  datatype Counts = Counts(addresses: nat, aliases: nat)

  function CountsOf(found: Answers): Counts { Counts(|found.answers|, |found.cnames|) }

  /** A name begins at `o` and does not run past `end`, unless it begins with a pointer. */
  ghost predicate AliasAt(b: seq<byte>, o: nat, end: nat) {
    exists labels, e: nat :: NameAt(b, o, labels, e) && (e <= end || At(b, o) >= 192)
  }

  /** The fixed fields of a record behind its owner, and its data, can be kept or skipped. */
  ghost predicate FieldsFine(b: seq<byte>, middle: nat, c: Counts, maxTtl: nat)
    requires middle + 10 <= |b|
  {
    var kind, klass, ttl, length := U16(b, middle), U16(b, middle + 2), U32(b, middle + 4), U16(b, middle + 8);
    var end := middle + 10 + length;
    && end <= |b|
    && (klass == 1 && ttl > 0 ==>
          && (kind == 1 ==> length == 4 && c.addresses < 16)
          && (kind == 28 ==> length == 16 && c.addresses < 16)
          && (kind == 5 && c.aliases < 8 ==> AliasAt(b, middle + 10, end))
          && (kind == 1 || kind == 28 || (kind == 5 && c.aliases < 8) ==> ttl <= 86_400 || maxTtl <= 86_400))
  }

  function NextCounts(b: seq<byte>, middle: nat, c: Counts): Counts
    requires middle + 10 <= |b|
  {
    var kind, klass, ttl := U16(b, middle), U16(b, middle + 2), U32(b, middle + 4);
    if klass != 1 || ttl == 0 then c
    else if kind == 1 || kind == 28 then c.(addresses := c.addresses + 1)
    else if kind == 5 && c.aliases < 8 then c.(aliases := c.aliases + 1)
    else c
  }

  /** So many records follow one another from `o` on, each of which can be kept or skipped. */
  ghost predicate RecordsFine(b: seq<byte>, o: nat, count: nat, c: Counts, maxTtl: nat)
    decreases count
  {
    count == 0 ||
    exists owner, middle: nat ::
      && NameAt(b, o, owner, middle) && middle + 10 <= |b| && FieldsFine(b, middle, c, maxTtl)
      && RecordsFine(b, middle + 10 + U16(b, middle + 8), count - 1, NextCounts(b, middle, c), maxTtl)
  }

  lemma OneName(b: seq<byte>, o: nat, a: Labels, x: nat, c: Labels, y: nat)
    requires NameAt(b, o, a, x) && NameAt(b, o, c, y)
    ensures x == y
  {
    NameAtDecodes(b, o, a, x);
    NameAtDecodes(b, o, c, y);
  }

  lemma {:induction false} AliasExact(b: seq<byte>, o: nat, end: nat)
    ensures AliasAt(b, o, end) <==> DecodeName(b, o).Ok? && (DecodeName(b, o).value.consumed <= end || IsPointer(At(b, o)))
  {
    hide DecodeName;
    hide NameAt;
    NameExact(b, o);
    if DecodeName(b, o).Ok? {
      var labels, e: nat :| NameAt(b, o, labels, e);
      assert DecodeName(b, o).value.consumed == e;
    }
  }

  /** One record is absorbed if and only if its fields are fine, and then counts as they say. */
  lemma {:induction false} AbsorbExact(b: seq<byte>, h: Head, middle: nat, found: Answers, maxTtl: nat)
    requires maxTtl > 0 && middle + 10 <= |b| && middle + 10 + U16(b, middle + 8) <= |b|
    requires h.kind == U16(b, middle) && h.klass == U16(b, middle + 2) && h.ttl == Min(U32(b, middle + 4), maxTtl)
    requires h.dataAt == middle + 10 && h.dataEnd == middle + 10 + U16(b, middle + 8)
    requires |found.answers| <= 16 && |found.cnames| <= 8
    ensures Absorb(b, h, found).Ok? <==> FieldsFine(b, middle, CountsOf(found), maxTtl)
    ensures Absorb(b, h, found).Ok? ==>
              var r := Absorb(b, h, found).value.found;
              CountsOf(r) == NextCounts(b, middle, CountsOf(found)) && |r.answers| <= 16 && |r.cnames| <= 8
  {
    hide DecodeName;
    hide AliasAt;
    hide U16;
    hide U32;
    AliasExact(b, middle + 10, h.dataEnd);
  }

  lemma {:induction false} HeadExact(b: seq<byte>, o: nat, maxTtl: nat)
    ensures ReadHead(b, o, maxTtl).Ok? <==>
            exists owner, middle: nat :: NameAt(b, o, owner, middle) && middle + 10 <= |b| && middle + 10 + U16(b, middle + 8) <= |b|
    ensures forall owner, middle: nat :: NameAt(b, o, owner, middle) && middle + 10 <= |b| && middle + 10 + U16(b, middle + 8) <= |b| ==>
              ReadHead(b, o, maxTtl) == Ok(Head(NameText(owner), U16(b, middle), U16(b, middle + 2), Min(U32(b, middle + 4), maxTtl),
                                                middle + 10, middle + 10 + U16(b, middle + 8)))
  {
    hide DecodeName;
    hide NameAt;
    hide U16;
    hide U32;
    NameExact(b, o);
    if ReadHead(b, o, maxTtl).Ok? {
      var owner, middle: nat :| NameAt(b, o, owner, middle);
      assert middle + 10 <= |b|;
    }
  }

  lemma {:induction false} RecordsExact(b: seq<byte>, o: nat, count: nat, found: Answers, maxTtl: nat)
    requires maxTtl > 0 && |found.answers| <= 16 && |found.cnames| <= 8
    ensures ParseRecords(b, o, count, found, maxTtl).Ok? <==> RecordsFine(b, o, count, CountsOf(found), maxTtl)
    decreases count
  {
    hide ReadHead;
    hide Absorb;
    hide NameAt;
    hide FieldsFine;
    hide NextCounts;
    hide U16;
    hide U32;
    if count > 0 {
      HeadExact(b, o, maxTtl);
      if ReadHead(b, o, maxTtl).Ok? {
        var owner, middle: nat :| NameAt(b, o, owner, middle) && middle + 10 <= |b| && middle + 10 + U16(b, middle + 8) <= |b|;
        RecordsFirst(b, o, count, found, maxTtl, owner, middle);
      } else if RecordsFine(b, o, count, CountsOf(found), maxTtl) {
        FieldsInside(b, o, count, CountsOf(found), maxTtl);
      }
    }
  }

  lemma {:induction false} FieldsInside(b: seq<byte>, o: nat, count: nat, c: Counts, maxTtl: nat)
    requires count > 0 && RecordsFine(b, o, count, c, maxTtl)
    ensures exists owner, middle: nat :: NameAt(b, o, owner, middle) && middle + 10 <= |b| && middle + 10 + U16(b, middle + 8) <= |b|
  {
    hide NameAt;
    var owner, middle: nat :|
      && NameAt(b, o, owner, middle) && middle + 10 <= |b| && FieldsFine(b, middle, c, maxTtl)
      && RecordsFine(b, middle + 10 + U16(b, middle + 8), count - 1, NextCounts(b, middle, c), maxTtl);
  }

  lemma {:induction false} RecordsFirst(b: seq<byte>, o: nat, count: nat, found: Answers, maxTtl: nat, owner: Labels, middle: nat)
    requires maxTtl > 0 && |found.answers| <= 16 && |found.cnames| <= 8 && count > 0
    requires NameAt(b, o, owner, middle) && middle + 10 <= |b| && middle + 10 + U16(b, middle + 8) <= |b|
    requires ReadHead(b, o, maxTtl) == Ok(Head(NameText(owner), U16(b, middle), U16(b, middle + 2), Min(U32(b, middle + 4), maxTtl),
                                               middle + 10, middle + 10 + U16(b, middle + 8)))
    ensures ParseRecords(b, o, count, found, maxTtl).Ok? <==> RecordsFine(b, o, count, CountsOf(found), maxTtl)
    decreases count, 0
  {
    hide ReadHead;
    hide Absorb;
    hide NameAt;
    hide FieldsFine;
    hide NextCounts;
    hide U16;
    hide U32;
    var h, c := ReadHead(b, o, maxTtl).value, CountsOf(found);
    AbsorbExact(b, h, middle, found, maxTtl);
    if Absorb(b, h, found).Ok? {
      RecordsExact(b, h.dataEnd, count - 1, Absorb(b, h, found).value.found, maxTtl);
    }
    if RecordsFine(b, o, count, c, maxTtl) {
      var other, m: nat :|
        && NameAt(b, o, other, m) && m + 10 <= |b| && FieldsFine(b, m, c, maxTtl)
        && RecordsFine(b, m + 10 + U16(b, m + 8), count - 1, NextCounts(b, m, c), maxTtl);
      OneName(b, o, owner, middle, other, m);
    }
  }

  // ---------------------------------------------------------------- messages

  /** The question: a name, type A or AAAA, class IN. */
  ghost predicate QuestionFine(b: seq<byte>, labels: Labels, end: nat) {
    NameAt(b, 12, labels, end) && end + 4 <= |b| && U16(b, end) in {1, 28} && U16(b, end + 2) == 1
  }

  /** The header: opcode 0, one question, at most 24 answers, a response code of at most 5. */
  predicate HeaderFine(b: seq<byte>)
    requires |b| >= 12
  {
    b[2] / 8 % 16 == 0 && U16(b, 4) == 1 && U16(b, 6) <= 24 && b[3] % 16 <= 5
  }

  ghost predicate WellFormed(b: seq<byte>, maxTtl: nat) {
    && |b| >= 12 && HeaderFine(b)
    && exists labels, end: nat :: QuestionFine(b, labels, end) && RecordsFine(b, end + 4, U16(b, 6), Counts(0, 0), maxTtl)
  }

  lemma FlagBits(b: seq<byte>)
    requires |b| >= 12
    ensures var flags := U16(b, 2);
            && flags / 2048 % 16 == b[2] / 8 % 16 && flags % 16 == b[3] % 16
            && (flags >= 32768 <==> b[2] >= 128) && flags / 512 % 2 == b[2] / 2 % 2
  {
    var high, low := b[2] as int, b[3] as int;
    var flags := 256 * high + low;
    assert flags / 2048 == high / 8 by { assert high == high / 8 * 8 + high % 8; }
    assert flags / 512 == high / 2 by { assert high == high / 2 * 2 + high % 2; }
    assert flags % 16 == low % 16;
  }

  lemma {:induction false} QuestionExact(b: seq<byte>)
    requires |b| >= 12
    ensures ParseQuestion(b).Ok? <==> exists labels, end: nat :: QuestionFine(b, labels, end)
    ensures forall labels, end: nat :: QuestionFine(b, labels, end) ==>
              ParseQuestion(b) == Ok(Question(NameText(labels), if U16(b, end) == 1 then A else Aaaa, end + 4))
  {
    hide DecodeName;
    hide NameAt;
    hide U16;
    NameExact(b, 12);
    if ParseQuestion(b).Ok? {
      var labels, end: nat :| NameAt(b, 12, labels, end);
      assert QuestionFine(b, labels, end);
    }
  }

  /**
   The parser accepts exactly the well-formed messages: a fine header, a fine question, and as many fine records as the
   header announces. The TTL limit makes no difference unless it is over a day.
   */
  lemma {:induction false} AcceptsExactly(b: seq<byte>, maxTtl: nat)
    requires maxTtl > 0
    ensures Parse(b, maxTtl).Ok? <==> WellFormed(b, maxTtl)
  {
    hide DecodeName;
    hide NameAt;
    hide ParseRecords;
    hide RecordsFine;
    hide ParseQuestion;
    hide U16;
    if |b| >= 12 {
      FlagBits(b);
      QuestionExact(b);
      if exists labels, end: nat :: QuestionFine(b, labels, end) {
        var labels, end: nat :| QuestionFine(b, labels, end);
        RecordsExact(b, end + 4, U16(b, 6), Answers([], [], None), maxTtl);
        forall other, e: nat | QuestionFine(b, other, e) ensures e == end {
          OneName(b, 12, labels, end, other, e);
        }
      }
    }
  }

  /** What an accepted message says of its header and question. */
  lemma {:induction false} HeaderRead(b: seq<byte>, maxTtl: nat)
    requires Parse(b, maxTtl).Ok?
    ensures |b| >= 12
    ensures var m := Parse(b, maxTtl).value.message;
            && m.id == U16(b, 0) && (m.response <==> b[2] >= 128) && (m.truncated <==> b[2] / 2 % 2 == 1)
            && m.code == [NoError, FormErr, ServFail, NxDomain, NotImp, Refused][Min(b[3] % 16, 5)] && b[3] % 16 <= 5
            && exists labels, end: nat :: QuestionFine(b, labels, end) && m.name == NameText(labels) && (m.queryType == A <==> U16(b, end) == 1)
  {
    hide DecodeName;
    hide NameAt;
    hide ParseRecords;
    hide ParseQuestion;
    hide U16;
    FlagBits(b);
    QuestionExact(b);
    var labels, end: nat :| QuestionFine(b, labels, end);
  }

  /**
   Another opcode, another number of questions than one, and more than 24 answers are always refused as unsupported; so is
   a response code above 5 behind a question that can be read, and behind any other question the message is refused too.
   */
  lemma {:induction false} UnsupportedExactly(b: seq<byte>, maxTtl: nat)
    requires |b| >= 12 && maxTtl > 0
    ensures b[2] / 8 % 16 != 0 || U16(b, 4) != 1 || U16(b, 6) > 24 ==> Parse(b, maxTtl) == Err(Unsupported)
    ensures b[3] % 16 > 5 && (exists labels, end: nat :: QuestionFine(b, labels, end)) ==> Parse(b, maxTtl) == Err(Unsupported)
    ensures b[3] % 16 > 5 ==> Parse(b, maxTtl).Err?
  {
    hide DecodeName;
    hide NameAt;
    hide ParseRecords;
    hide ParseQuestion;
    hide U16;
    FlagBits(b);
    QuestionExact(b);
  }
}
