/** A parsed DNS message depends on an exact prefix of its bytes: longer input changes nothing, shorter input is truncated. */
module DnsReach {
  import opened Text
  import opened DnsName
  import opened DnsMessage

  lemma ReadsAgree(b: seq<byte>, c: seq<byte>, r: nat)
    requires Agree(b, c, r)
    ensures forall o: nat :: o + 2 <= r ==> U16(b, o) == U16(c, o)
    ensures forall o: nat :: o + 4 <= r ==> U32(b, o) == U32(c, o)
  {}

  lemma PrefixAgrees(b: seq<byte>, n: nat)
    requires n <= |b|
    ensures forall r: nat :: r <= n ==> Agree(b, b[..n], r)
  {}

  lemma AgreeLess(b: seq<byte>, c: seq<byte>, r: nat, q: nat)
    requires Agree(b, c, r) && q <= r
    ensures Agree(b, c, q)
  {}

  lemma NameReach(b: seq<byte>, start: nat, c: seq<byte>)
    requires DecodeName(b, start).Ok?
    ensures var e := DecodeName(b, start).value.consumed;
            start < e <= |b| && (Agree(b, c, e) ==> DecodeName(c, start) == DecodeName(b, start))
  {
    DecodeReach(b, start, [], None, MAX_STEPS, c);
  }

  lemma HeadReach(b: seq<byte>, offset: nat, maxTtl: nat, c: seq<byte>)
    requires ReadHead(b, offset, maxTtl).Ok?
    ensures var h := ReadHead(b, offset, maxTtl).value;
            && offset < h.dataAt <= h.dataEnd <= |b|
            && (Agree(b, c, h.dataEnd) ==> ReadHead(c, offset, maxTtl) == ReadHead(b, offset, maxTtl))
  {
    hide DecodeName;
    hide U16;
    hide U32;
    hide Agree;
    NameReach(b, offset, c);
    var h := ReadHead(b, offset, maxTtl).value;
    if Agree(b, c, h.dataEnd) {
      AgreeLess(b, c, h.dataEnd, DecodeName(b, offset).value.consumed);
      ReadsAgree(b, c, h.dataEnd);
      AgreeBound(b, c, h.dataEnd);
      var o := DecodeName(b, offset).value.consumed;
      assert U16(b, o) == U16(c, o) && U16(b, o + 2) == U16(c, o + 2) && U16(b, o + 8) == U16(c, o + 8);
      assert U32(b, o + 4) == U32(c, o + 4);
    }
  }

  lemma AgreeBound(b: seq<byte>, c: seq<byte>, r: nat)
    requires Agree(b, c, r)
    ensures r <= |b| && r <= |c|
  {}

  lemma HeadCut(b: seq<byte>, offset: nat, maxTtl: nat, n: nat)
    requires ReadHead(b, offset, maxTtl).Ok? && n <= |b| && n < ReadHead(b, offset, maxTtl).value.dataEnd
    ensures ReadHead(b[..n], offset, maxTtl) == Err(Bounds)
  {
    hide DecodeName;
    hide U16;
    hide U32;
    DecodeNameExact(b, offset, n);
    var o := DecodeName(b, offset).value.consumed;
    if o + 10 <= n {
      PrefixAgrees(b, n);
      ReadsAgree(b, b[..n], n);
      assert U16(b, o + 8) == U16(b[..n], o + 8);
    }
  }

  lemma AbsorbReach(b: seq<byte>, h: Head, found: Answers, c: seq<byte>)
    requires h.dataAt <= h.dataEnd <= |b| && h.dataEnd <= |c| && Absorb(b, h, found).Ok?
    ensures var r := Absorb(b, h, found).value.reach;
            && h.dataEnd <= r <= |b| && r <= h.dataEnd + 2
            && (Agree(b, c, r) ==> Absorb(c, h, found) == Absorb(b, h, found))
  {
    hide DecodeName;
    var r := Absorb(b, h, found).value.reach;
    if h.kind == TYPE_CNAME && DecodeName(b, h.dataAt).Ok? {
      NameReach(b, h.dataAt, c);
      PointerFirst(b, h.dataAt);
      if Agree(b, c, r) && DecodeName(b, h.dataAt).value.consumed <= r {
        AgreeLess(b, c, r, DecodeName(b, h.dataAt).value.consumed);
      }
    }
    if Agree(b, c, r) {
      assert b[h.dataAt..h.dataEnd] == c[h.dataAt..h.dataEnd];
    }
  }

  /** A name that begins with a pointer ends right after it. */
  lemma PointerFirst(b: seq<byte>, start: nat)
    requires DecodeName(b, start).Ok?
    ensures start < |b| && (IsPointer(b[start]) ==> DecodeName(b, start).value.consumed == start + 2)
  {
    hide Decode;
    DecodeOnce(b, start, [], None, MAX_STEPS);
    TokenReach(b, start, b);
    if IsPointer(b[start]) {
      DecodeReach(b, TokenAt(b, start).to, [], Some(start + 2), MAX_STEPS - 1, b);
    }
  }

  lemma AbsorbCut(b: seq<byte>, h: Head, found: Answers, n: nat)
    requires h.dataAt <= h.dataEnd <= n <= |b| && Absorb(b, h, found).Ok? && n < Absorb(b, h, found).value.reach
    ensures Absorb(b[..n], h, found) == Err(Bounds)
  {
    hide DecodeName;
    DecodeNameExact(b, h.dataAt, n);
  }

  lemma {:induction false} RecordsReach(b: seq<byte>, offset: nat, count: nat, found: Answers, maxTtl: nat, c: seq<byte>)
    requires ParseRecords(b, offset, count, found, maxTtl).Ok? && offset <= |b|
    ensures var p := ParseRecords(b, offset, count, found, maxTtl).value;
            && offset <= p.end <= p.reach <= |b| && p.reach <= p.end + 2
            && (Agree(b, c, p.reach) ==> ParseRecords(c, offset, count, found, maxTtl) == ParseRecords(b, offset, count, found, maxTtl))
    decreases count
  {
    hide ReadHead;
    hide Absorb;
    hide Agree;
    if count > 0 {
      var p := ParseRecords(b, offset, count, found, maxTtl).value;
      var h := ReadHead(b, offset, maxTtl).value;
      HeadReach(b, offset, maxTtl, c);
      AbsorbReach(b, h, found, b);
      var a := Absorb(b, h, found).value;
      RecordsReach(b, h.dataEnd, count - 1, a.found, maxTtl, c);
      if Agree(b, c, p.reach) {
        AgreeBound(b, c, p.reach);
        AgreeLess(b, c, p.reach, h.dataEnd);
        AgreeLess(b, c, p.reach, a.reach);
        AgreeLess(b, c, p.reach, ParseRecords(b, h.dataEnd, count - 1, a.found, maxTtl).value.reach);
        AbsorbReach(b, h, found, c);
      }
    }
  }

  lemma {:induction false} RecordsCut(b: seq<byte>, offset: nat, count: nat, found: Answers, maxTtl: nat, n: nat)
    requires ParseRecords(b, offset, count, found, maxTtl).Ok?
    requires offset <= n <= |b| && n < ParseRecords(b, offset, count, found, maxTtl).value.reach
    ensures ParseRecords(b[..n], offset, count, found, maxTtl) == Err(Bounds)
    decreases count
  {
    hide ReadHead;
    hide Absorb;
    hide Agree;
    var c := b[..n];
    var h := ReadHead(b, offset, maxTtl).value;
    HeadReach(b, offset, maxTtl, c);
    if n < h.dataEnd {
      HeadCut(b, offset, maxTtl, n);
    } else {
      PrefixAgrees(b, n);
      AbsorbReach(b, h, found, c);
      var a := Absorb(b, h, found).value;
      if n < a.reach {
        AbsorbCut(b, h, found, n);
      } else {
        assert Agree(b, c, a.reach);
        RecordsCut(b, h.dataEnd, count - 1, a.found, maxTtl, n);
      }
    }
  }

  lemma QuestionReach(b: seq<byte>, c: seq<byte>)
    requires ParseQuestion(b).Ok?
    ensures HEADER_LEN < ParseQuestion(b).value.end <= |b|
    ensures Agree(b, c, ParseQuestion(b).value.end) ==> ParseQuestion(c) == ParseQuestion(b)
  {
    hide DecodeName;
    hide U16;
    NameReach(b, HEADER_LEN, c);
    var e := ParseQuestion(b).value.end;
    if Agree(b, c, e) {
      ReadsAgree(b, c, e);
      assert U16(b, e - 4) == U16(c, e - 4) && U16(b, e - 2) == U16(c, e - 2);
    }
  }

  lemma QuestionCut(b: seq<byte>, n: nat)
    requires ParseQuestion(b).Ok? && n <= |b| && n < ParseQuestion(b).value.end
    ensures ParseQuestion(b[..n]) == Err(Bounds)
  {
    hide DecodeName;
    hide U16;
    DecodeNameExact(b, HEADER_LEN, n);
    PrefixAgrees(b, n);
    ReadsAgree(b, b[..n], n);
    var o := DecodeName(b, HEADER_LEN).value.consumed;
    assert o + 2 <= n ==> U16(b, o) == U16(b[..n], o);
  }

  lemma MessageReach(b: seq<byte>, maxTtl: nat, c: seq<byte>)
    requires Parse(b, maxTtl).Ok?
    ensures var p := Parse(b, maxTtl).value;
            && HEADER_LEN < p.end <= p.reach <= |b| && p.reach <= p.end + 2
            && (Agree(b, c, p.reach) ==> Parse(c, maxTtl) == Parse(b, maxTtl))
  {
    hide ParseQuestion;
    hide ParseRecords;
    hide U16;
    var p := Parse(b, maxTtl).value;
    QuestionReach(b, c);
    var q := ParseQuestion(b).value;
    RecordsReach(b, q.end, U16(b, 6), Answers([], [], None), maxTtl, c);
    if Agree(b, c, p.reach) {
      AgreeLess(b, c, p.reach, q.end);
      ReadsAgree(b, c, p.reach);
      assert U16(b, 0) == U16(c, 0) && U16(b, 2) == U16(c, 2) && U16(b, 4) == U16(c, 4) && U16(b, 6) == U16(c, 6);
    }
  }

  lemma MessageCut(b: seq<byte>, maxTtl: nat, n: nat)
    requires Parse(b, maxTtl).Ok? && n <= |b| && n < Parse(b, maxTtl).value.reach
    ensures Parse(b[..n], maxTtl) == Err(Bounds)
  {
    hide ParseQuestion;
    hide ParseRecords;
    hide U16;
    var c := b[..n];
    if n >= HEADER_LEN {
      PrefixAgrees(b, n);
      ReadsAgree(b, c, n);
      assert U16(b, 0) == U16(c, 0) && U16(b, 2) == U16(c, 2) && U16(b, 4) == U16(c, 4) && U16(b, 6) == U16(c, 6);
      var q := ParseQuestion(b).value;
      QuestionReach(b, c);
      if n < q.end {
        QuestionCut(b, n);
      } else {
        assert Agree(b, c, q.end);
        RecordsCut(b, q.end, U16(b, 6), Answers([], [], None), maxTtl, n);
      }
    }
  }

  /**
   A message that parses does so on every prefix that contains the bytes it reaches, with the same result, and is
   rejected as truncated on every shorter one. The reach is the end of its last record, or up to two bytes further
   when that is a CNAME record whose data is shorter than the pointer it starts with.
   */
  lemma ParseExact(b: seq<byte>, maxTtl: nat, n: nat)
    requires Parse(b, maxTtl).Ok? && n <= |b|
    ensures var p := Parse(b, maxTtl).value;
            && p.end <= p.reach <= p.end + 2 && p.reach <= |b|
            && Parse(b[..n], maxTtl) == if n >= p.reach then Parse(b, maxTtl) else Err(Bounds)
  {
    hide Parse;
    PrefixAgrees(b, n);
    MessageReach(b, maxTtl, b[..n]);
    if n < Parse(b, maxTtl).value.reach {
      MessageCut(b, maxTtl, n);
    }
  }

  /** Appending any bytes to a message that parses leaves the result unchanged. */
  lemma ParseAppend(b: seq<byte>, maxTtl: nat, tail: seq<byte>)
    requires Parse(b, maxTtl).Ok?
    ensures Parse(b + tail, maxTtl) == Parse(b, maxTtl)
  {
    MessageReach(b, maxTtl, b + tail);
  }
}
