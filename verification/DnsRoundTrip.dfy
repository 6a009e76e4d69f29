/**
 Parsing undoes wire encoding: any bytes that carry a query or response per sections 4.1.1 to 4.1.4 of RFC 1035, with
 every name written out or compressed in any way, parse to what they carry.
 */
module DnsRoundTrip {
  import opened Text
  import opened DnsName
  import opened DnsCodes
  import opened DnsMessage
  import opened DnsWireName

  type Labels = seq<seq<byte>>

  datatype Data = Address(bytes: seq<byte>) | Target(name: Labels) | Opaque(kind: nat, bytes: seq<byte>)

  datatype Record = Record(owner: Labels, klass: nat, ttl: nat, data: Data)

  /** The text a name decodes to. */
  function NameText(labels: Labels): seq<byte> { Join(Lowered(labels), DOT) }

  // ---------------------------------------------------------------- names and numbers in place

  /** A valid name stands at `o`, in a form that takes no more steps than decoding allows. */
  ghost predicate NameAt(b: seq<byte>, o: nat, labels: Labels, end: nat) {
    ValidLabels(labels) && exists n: nat :: n <= MAX_STEPS && Stands(b, o, labels, n, end)
  }

  lemma {:induction false} NameAtDecodes(b: seq<byte>, o: nat, labels: Labels, end: nat)
    requires NameAt(b, o, labels, end)
    ensures DecodeName(b, o) == Ok(Decoded(NameText(labels), end))
  {
    hide Stands;
    hide DecodeName;
    hide ValidLabels;
    var n: nat :| n <= MAX_STEPS && Stands(b, o, labels, n, end);
    CompressedNameExact(b, o, labels, n, end);
  }

  lemma {:induction false} U16Holds(b: seq<byte>, o: nat, n: nat)
    requires n < 0x1_0000 && Holds(b, o, BigEndian(n, 2))
    ensures U16(b, o) == n
  {
    assert BigEndian(n, 1) == [n % 256] && BigEndian(n / 256, 1) == [n / 256 % 256];
    assert BigEndian(n, 2) == [n / 256, n % 256];
    HoldsFirst(b, o, BigEndian(n, 2));
  }

  lemma {:induction false} U32Holds(b: seq<byte>, o: nat, n: nat)
    requires n < 0x1_0000_0000 && Holds(b, o, BigEndian(n, 4))
    ensures U32(b, o) == n
  {
    assert BigEndian(n, 4) == BigEndian(n / 65536, 2) + BigEndian(n, 2) by {
      assert n / 256 / 256 == n / 65536;
      assert BigEndian(n, 2) == BigEndian(n / 256, 1) + [n % 256];
      assert BigEndian(n / 256, 3) == BigEndian(n / 65536, 2) + [n / 256 % 256];
      assert BigEndian(n / 256, 1) == BigEndian(n / 65536, 0) + [n / 256 % 256];
    }
    HoldsSplit(b, o, BigEndian(n / 65536, 2), BigEndian(n, 2));
    U16Holds(b, o, n / 65536);
    LowHalf(n);
    U16Holds(b, o + 2, n % 65536);
  }

  lemma LowBytes(n: nat)
    ensures n % 65536 % 256 == n % 256 && n % 65536 / 256 % 256 == n / 256 % 256
  {}

  lemma {:induction false} LowHalf(n: nat)
    ensures BigEndian(n % 65536, 2) == BigEndian(n, 2)
  {
    LowBytes(n);
    assert BigEndian(n, 2) == BigEndian(n / 256, 1) + [n % 256];
    assert BigEndian(n / 256, 1) == [] + [n / 256 % 256];
    assert BigEndian(n % 65536, 2) == BigEndian(n % 65536 / 256, 1) + [n % 65536 % 256];
    assert BigEndian(n % 65536 / 256, 1) == [] + [n % 65536 / 256 % 256];
  }

  // ---------------------------------------------------------------- records in place

  function Kind(d: Data): nat {
    match d
    case Address(bytes) => if |bytes| == 4 then TYPE_A else TYPE_AAAA
    case Target(_) => TYPE_CNAME
    case Opaque(kind, _) => kind
  }

  /** The fields of a record after its owner name. */
  function FieldBytes(r: Record, length: nat): seq<byte> {
    BigEndian(Kind(r.data), 2) + BigEndian(r.klass, 2) + BigEndian(r.ttl, 4) + BigEndian(length, 2)
  }

  ghost predicate DataAt(b: seq<byte>, o: nat, d: Data, end: nat) {
    match d
    case Address(bytes) => (|bytes| == 4 || |bytes| == 16) && Holds(b, o, bytes) && end == o + |bytes|
    case Target(name) => NameAt(b, o, name, end)
    case Opaque(kind, bytes) =>
      && kind < 0x1_0000 && kind != TYPE_A && kind != TYPE_AAAA && kind != TYPE_CNAME && Holds(b, o, bytes) && end == o + |bytes|
  }

  /** A record stands at `o`: its owner name up to `middle`, then its fields, then its data up to `end`. */
  ghost predicate RecordAt(b: seq<byte>, o: nat, r: Record, middle: nat, end: nat) {
    && NameAt(b, o, r.owner, middle) && r.klass < 0x1_0000 && r.ttl < 0x1_0000_0000
    && middle + 10 <= end <= |b| && end - middle - 10 < 0x1_0000
    && Holds(b, middle, FieldBytes(r, end - middle - 10)) && DataAt(b, middle + 10, r.data, end)
  }

  ghost predicate RecordsAt(b: seq<byte>, o: nat, records: seq<Record>, end: nat)
    decreases |records|
  {
    if records == [] then o == end
    else exists middle, next :: RecordAt(b, o, records[0], middle, next) && RecordsAt(b, next, records[1..], end)
  }

  /** What a record contributes: nothing unless it is of class IN with a positive TTL. */
  function Keep(r: Record, found: Answers, maxTtl: nat): Result<Answers> {
    var h := Head(NameText(r.owner), Kind(r.data), r.klass, Min(r.ttl, maxTtl), 0, 0);
    if r.klass != CLASS_IN || h.ttl == 0 then Ok(found)
    else match r.data
      case Address(bytes) => if |found.answers| < MAX_ANSWERS then KeepAddress(h, found, bytes) else Err(Bounds)
      case Target(name) => if |found.cnames| < MAX_CNAMES then KeepCname(h, found, NameText(name)) else Ok(found)
      case Opaque(_, _) => Ok(found)
  }

  function KeepAll(records: seq<Record>, found: Answers, maxTtl: nat): Result<Answers> {
    if records == [] then Ok(found)
    else
      var first := Keep(records[0], found, maxTtl);
      if first.Err? then first else KeepAll(records[1..], first.value, maxTtl)
  }

  lemma {:induction false} FieldsHold(b: seq<byte>, e: nat, r: Record, length: nat)
    requires Kind(r.data) < 0x1_0000 && r.klass < 0x1_0000 && r.ttl < 0x1_0000_0000 && length < 0x1_0000
    requires Holds(b, e, FieldBytes(r, length))
    ensures e + 10 <= |b| && |FieldBytes(r, length)| == 10
    ensures U16(b, e) == Kind(r.data) && U16(b, e + 2) == r.klass && U32(b, e + 4) == r.ttl && U16(b, e + 8) == length
  {
    hide Holds;
    hide BigEndian;
    hide U16;
    hide U32;
    var k, c, t, n := BigEndian(Kind(r.data), 2), BigEndian(r.klass, 2), BigEndian(r.ttl, 4), BigEndian(length, 2);
    HoldsSlice(b, e, FieldBytes(r, length));
    HoldsSplit(b, e, k + c + t, n);
    HoldsSplit(b, e, k + c, t);
    HoldsSplit(b, e, k, c);
    U16Holds(b, e, Kind(r.data));
    U16Holds(b, e + 2, r.klass);
    U32Holds(b, e + 4, r.ttl);
    U16Holds(b, e + 8, length);
  }

  lemma {:induction false} HeadRoundTrip(b: seq<byte>, o: nat, r: Record, middle: nat, end: nat, maxTtl: nat)
    requires RecordAt(b, o, r, middle, end)
    ensures ReadHead(b, o, maxTtl) == Ok(Head(NameText(r.owner), Kind(r.data), r.klass, Min(r.ttl, maxTtl), middle + 10, end))
  {
    hide Holds;
    hide NameAt;
    hide FieldBytes;
    hide NameText;
    hide DecodeName;
    hide U16;
    hide U32;
    NameAtDecodes(b, o, r.owner, middle);
    FieldsHold(b, middle, r, end - middle - 10);
  }

  /** A record in place is read back, and kept or skipped as its content says. */
  lemma {:induction false} RecordRoundTrip(b: seq<byte>, o: nat, r: Record, middle: nat, end: nat, found: Answers, maxTtl: nat)
    requires RecordAt(b, o, r, middle, end)
    ensures var h := ReadHead(b, o, maxTtl);
            && h.Ok? && h.value.dataEnd == end && h.value.dataAt <= h.value.dataEnd <= |b|
            && Absorb(b, h.value, found) == WithReach(Keep(r, found, maxTtl), end)
  {
    hide Holds;
    hide NameAt;
    hide FieldBytes;
    hide NameText;
    hide DecodeName;
    hide ReadHead;
    HeadRoundTrip(b, o, r, middle, end, maxTtl);
    match r.data
    case Address(bytes) => HoldsSlice(b, middle + 10, bytes);
    case Target(name) => NameAtDecodes(b, middle + 10, name, end);
    case Opaque(_, _) =>
  }

  lemma {:induction false} RecordsRoundTrip(b: seq<byte>, o: nat, records: seq<Record>, end: nat, found: Answers, maxTtl: nat)
    requires RecordsAt(b, o, records, end) && o <= |b|
    ensures var parsed := ParseRecords(b, o, |records|, found, maxTtl);
            match KeepAll(records, found, maxTtl) case Ok(a) => parsed.Ok? && parsed.value.found == a case Err(e) => parsed == Err(e)
    decreases |records|
  {
    hide ReadHead;
    hide Absorb;
    hide Keep;
    hide RecordAt;
    if records != [] {
      var r, rest := records[0], records[1..];
      var middle, next :| RecordAt(b, o, r, middle, next) && RecordsAt(b, next, rest, end);
      RecordRoundTrip(b, o, r, middle, next, found, maxTtl);
      var k := Keep(r, found, maxTtl);
      if k.Ok? {
        RecordsRoundTrip(b, next, rest, end, k.value, maxTtl);
      }
    }
  }

  // ---------------------------------------------------------------- messages in place

  /**
   What a query or response says: `middle` are the five header bits between TC and RCODE, `authorities` and `additional`
   the two counts the parser does not look at.
   */
  datatype DnsContent = DnsContent(
    id: nat, response: bool, authoritative: bool, truncated: bool, middle: nat, code: nat,
    question: Labels, queryType: QueryType, records: seq<Record>, authorities: nat, additional: nat)

  ghost predicate ValidContent(m: DnsContent) {
    && m.id < 0x1_0000 && m.middle < 32 && m.code <= 5 && m.authorities < 0x1_0000 && m.additional < 0x1_0000
    && |m.records| <= MAX_ANSWERS + MAX_CNAMES
  }

  function Bit(b: bool): nat { if b then 1 else 0 }

  function Flags(m: DnsContent): nat {
    32768 * Bit(m.response) + 1024 * Bit(m.authoritative) + 512 * Bit(m.truncated) + 16 * m.middle + m.code
  }

  function QueryCode(q: QueryType): nat { match q case A => TYPE_A case Aaaa => TYPE_AAAA }

  function HeaderBytes(m: DnsContent): (r: seq<byte>)
    ensures |r| == HEADER_LEN
  {
    BigEndian(m.id, 2) + BigEndian(Flags(m), 2) + BigEndian(1, 2) + BigEndian(|m.records|, 2)
    + BigEndian(m.authorities, 2) + BigEndian(m.additional, 2)
  }

  function CodeOf(code: nat): ResponseCode
    requires code <= 5
  {
    if code == 0 then NoError else if code == 1 then FormErr else if code == 2 then ServFail
    else if code == 3 then NxDomain else if code == 4 then NotImp else Refused
  }

  ghost function Expected(m: DnsContent, found: Answers): Message
    requires ValidContent(m)
  {
    Message(m.id, m.response, m.truncated, Join(Lowered(m.question), DOT), m.queryType, CodeOf(m.code), found)
  }

  function TypeBytes(m: DnsContent): seq<byte> { BigEndian(QueryCode(m.queryType), 2) + BigEndian(CLASS_IN, 2) }

  /** The bytes carry the message: its header, its question name up to `middle`, its type and class, and its records. */
  ghost predicate Carries(b: seq<byte>, m: DnsContent, middle: nat, end: nat) {
    && ValidContent(m) && Holds(b, 0, HeaderBytes(m)) && NameAt(b, HEADER_LEN, m.question, middle)
    && Holds(b, middle, TypeBytes(m)) && RecordsAt(b, middle + 4, m.records, end)
  }

  lemma HeaderHolds(b: seq<byte>, m: DnsContent)
    requires ValidContent(m) && Holds(b, 0, HeaderBytes(m))
    ensures |b| >= HEADER_LEN && U16(b, 0) == m.id && U16(b, 2) == Flags(m) && U16(b, 4) == 1 && U16(b, 6) == |m.records|
  {
    hide Holds;
    hide BigEndian;
    HoldsSlice(b, 0, HeaderBytes(m));
    hide U16;
    var i, f, q, n := BigEndian(m.id, 2), BigEndian(Flags(m), 2), BigEndian(1, 2), BigEndian(|m.records|, 2);
    var u, v := BigEndian(m.authorities, 2), BigEndian(m.additional, 2);
    HoldsSplit(b, 0, i + f + q + n + u, v);
    HoldsSplit(b, 0, i + f + q + n, u);
    HoldsSplit(b, 0, i + f + q, n);
    HoldsSplit(b, 0, i + f, q);
    HoldsSplit(b, 0, i, f);
    U16Holds(b, 0, m.id);
    U16Holds(b, 2, Flags(m));
    U16Holds(b, 4, 1);
    U16Holds(b, 6, |m.records|);
  }

  lemma QuestionRoundTrip(b: seq<byte>, m: DnsContent, middle: nat)
    requires NameAt(b, HEADER_LEN, m.question, middle) && Holds(b, middle, TypeBytes(m))
    ensures ParseQuestion(b) == Ok(Question(NameText(m.question), m.queryType, middle + 4)) && middle + 4 <= |b|
  {
    hide Holds;
    hide NameAt;
    hide NameText;
    hide BigEndian;
    hide DecodeName;
    hide U16;
    var t, c := BigEndian(QueryCode(m.queryType), 2), BigEndian(CLASS_IN, 2);
    NameAtDecodes(b, HEADER_LEN, m.question, middle);
    HoldsSlice(b, middle, t + c);
    HoldsSplit(b, middle, t, c);
    U16Holds(b, middle, QueryCode(m.queryType));
    U16Holds(b, middle + 2, CLASS_IN);
  }

  lemma FlagFields(m: DnsContent)
    requires ValidContent(m)
    ensures var f := Flags(m);
            f < 0x1_0000 && f / 2048 % 16 == 0 && f % 16 == m.code && (f >= 32768) == m.response && (f / 512 % 2 == 1) == m.truncated
  {}

  /** The parser's result, given what it finds in the header, the question and the records. */
  lemma {:induction false} Assemble(b: seq<byte>, m: DnsContent, maxTtl: nat, end: nat)
    requires ValidContent(m) && maxTtl > 0 && |b| >= HEADER_LEN
    requires U16(b, 0) == m.id && U16(b, 2) == Flags(m) && U16(b, 4) == 1 && U16(b, 6) == |m.records|
    requires ParseQuestion(b) == Ok(Question(Join(Lowered(m.question), DOT), m.queryType, end))
    ensures var r := Parse(b, maxTtl);
            match ParseRecords(b, end, |m.records|, Answers([], [], None), maxTtl)
            case Ok(p) => r.Ok? && r.value.message == Expected(m, p.found)
            case Err(e) => r == Err(e)
  {
    hide U16;
    hide ParseQuestion;
    hide ParseRecords;
    hide ValidLabels;
    hide Join;
    FlagFields(m);
    hide Flags;
  }

  /**
   Parsing undoes encoding: from any bytes that carry a message, however its names are compressed and whatever follows
   it, the parser returns its identifier, flags, lower-cased names, query type, response code and the records it keeps;
   it fails only where keeping them does.
   */
  lemma {:induction false} ParseCarried(b: seq<byte>, m: DnsContent, middle: nat, end: nat, maxTtl: nat)
    requires Carries(b, m, middle, end) && maxTtl > 0
    ensures var r := Parse(b, maxTtl);
            match KeepAll(m.records, Answers([], [], None), maxTtl)
            case Ok(found) => r.Ok? && r.value.message == Expected(m, found)
            case Err(e) => r == Err(e)
  {
    hide Parse;
    hide ParseQuestion;
    hide ParseRecords;
    hide KeepAll;
    hide Holds;
    hide NameAt;
    hide U16;
    hide HeaderBytes;
    hide Flags;
    hide RecordsAt;
    hide TypeBytes;
    HeaderHolds(b, m);
    QuestionRoundTrip(b, m, middle);
    RecordsRoundTrip(b, middle + 4, m.records, end, Answers([], [], None), maxTtl);
    Assemble(b, m, maxTtl, middle + 4);
  }

  // ---------------------------------------------------------------- what is kept

  /** A record that contributes: class IN and a positive TTL after clamping. */
  predicate Counts(r: Record, maxTtl: nat) { r.klass == CLASS_IN && Min(r.ttl, maxTtl) > 0 }

  function AddressIn(r: Record, maxTtl: nat): seq<Answer> {
    if Counts(r, maxTtl) && r.data.Address? then [Answer(NameText(r.owner), r.data.bytes, Min(r.ttl, maxTtl))] else []
  }

  function AliasIn(r: Record, maxTtl: nat): seq<Cname> {
    if Counts(r, maxTtl) && r.data.Target?
    then [Cname(NameText(r.owner), NameText(r.data.name), Min(r.ttl, maxTtl))] else []
  }

  /** The addresses among the records, in order. */
  function AddressesOf(records: seq<Record>, maxTtl: nat): seq<Answer> {
    if records == [] then []
    else
      AddressIn(records[0], maxTtl) + AddressesOf(records[1..], maxTtl)
  }

  /** The aliases among the records, in order. */
  function AliasesOf(records: seq<Record>, maxTtl: nat): seq<Cname> {
    if records == [] then []
    else
      AliasIn(records[0], maxTtl) + AliasesOf(records[1..], maxTtl)
  }

  function UpTo<T>(s: seq<T>, n: nat): seq<T> { if |s| <= n then s else s[..n] }

  /** `ttl` is the smallest TTL among the kept answers and aliases, or absent when there are none. */
  ghost predicate SmallestTtl(a: Answers) {
    && (a.ttl.None? <==> a.answers == [] && a.cnames == [])
    && (a.ttl.Some? ==>
          && (forall x :: x in a.answers ==> a.ttl.value <= x.ttl) && (forall x :: x in a.cnames ==> a.ttl.value <= x.ttl)
          && ((exists x :: x in a.answers && x.ttl == a.ttl.value) || (exists x :: x in a.cnames && x.ttl == a.ttl.value)))
  }

  lemma KeepOne(r: Record, found: Answers, maxTtl: nat)
    requires maxTtl <= MAX_TTL && SmallestTtl(found)
    ensures var k := Keep(r, found, maxTtl);
            && (k.Ok? ==> SmallestTtl(k.value))
            && (k.Err? <==> Counts(r, maxTtl) && r.data.Address? && |found.answers| >= MAX_ANSWERS) && (k.Err? ==> k == Err(Bounds))
  {
    var k := Keep(r, found, maxTtl);
    if k.Ok? && k.value != found {
      if r.data.Address? {
        assert k.value.answers[|found.answers|] in k.value.answers;
        assert forall x :: x in found.answers ==> x in k.value.answers;
      } else {
        assert k.value.cnames[|found.cnames|] in k.value.cnames;
        assert forall x :: x in found.cnames ==> x in k.value.cnames;
      }
    }
  }

  lemma {:induction false} KeepAllFrom(records: seq<Record>, found: Answers, maxTtl: nat)
    requires maxTtl <= MAX_TTL && SmallestTtl(found) && |found.answers| <= MAX_ANSWERS && |found.cnames| <= MAX_CNAMES
    ensures var k, addresses := KeepAll(records, found, maxTtl), found.answers + AddressesOf(records, maxTtl);
            && (k.Ok? <==> |addresses| <= MAX_ANSWERS) && (k.Err? ==> k == Err(Bounds))
            && (k.Ok? ==> && k.value.answers == addresses && SmallestTtl(k.value)
                          && k.value.cnames == UpTo(found.cnames + AliasesOf(records, maxTtl), MAX_CNAMES))
  {
    hide SmallestTtl;
    hide Keep;
    if records == [] {
      assert found.answers + AddressesOf(records, maxTtl) == found.answers;
      assert found.cnames + AliasesOf(records, maxTtl) == found.cnames;
    } else {
      hide AddressIn;
      hide AliasIn;
      var r, rest := records[0], records[1..];
      KeepOne(r, found, maxTtl);
      KeepLists(r, found, maxTtl);
      var k := Keep(r, found, maxTtl);
      Regroup(found.answers, AddressIn(r, maxTtl), AddressesOf(rest, maxTtl));
      if k.Ok? {
        KeepAllFrom(rest, k.value, maxTtl);
        Regroup(found.cnames, AliasIn(r, maxTtl), AliasesOf(rest, maxTtl));
      }
    }
  }

  lemma Regroup<T>(a: seq<T>, b: seq<T>, c: seq<T>)
    ensures a + (b + c) == (a + b) + c
  {}

  /** What one record adds to the lists; a full list of aliases stays as it is. */
  lemma KeepLists(r: Record, found: Answers, maxTtl: nat)
    requires maxTtl <= MAX_TTL && |found.answers| <= MAX_ANSWERS && |found.cnames| <= MAX_CNAMES
    ensures var k, addresses := Keep(r, found, maxTtl), found.answers + AddressIn(r, maxTtl);
            && (k.Err? ==> |addresses| > MAX_ANSWERS)
            && (k.Ok? ==> && k.value.answers == addresses && |addresses| <= MAX_ANSWERS && |k.value.cnames| <= MAX_CNAMES
                          && k.value.cnames == if |found.cnames| < MAX_CNAMES then found.cnames + AliasIn(r, maxTtl) else found.cnames)
  {
    hide NameText;
    assert found.answers + [] == found.answers && found.cnames + [] == found.cnames;
  }

  /**
   With the clamp within the platform's limit, the parser rejects a carried message exactly when more than 16 of its
   address records count; otherwise it returns all of them, the first 8 aliases and the smallest of their TTLs.
   */
  lemma {:induction false} KeptExactly(b: seq<byte>, m: DnsContent, middle: nat, end: nat, maxTtl: nat)
    requires Carries(b, m, middle, end) && 0 < maxTtl <= 86_400
    ensures var r, addresses := Parse(b, maxTtl), AddressesOf(m.records, maxTtl);
            && (r.Ok? <==> |addresses| <= MAX_ANSWERS) && (r.Err? ==> r == Err(Bounds))
            && (r.Ok? ==> var found := r.value.message.found;
                          && r.value.message == Expected(m, found) && found.answers == addresses && SmallestTtl(found)
                          && found.cnames == UpTo(AliasesOf(m.records, maxTtl), MAX_CNAMES))
  {
    hide Parse;
    hide KeepAll;
    hide Holds;
    hide NameAt;
    hide RecordsAt;
    hide HeaderBytes;
    hide TypeBytes;
    var none := Answers([], [], None);
    ParseCarried(b, m, middle, end, maxTtl);
    KeepAllFrom(m.records, none, maxTtl);
    assert [] + AddressesOf(m.records, maxTtl) == AddressesOf(m.records, maxTtl);
    assert [] + AliasesOf(m.records, maxTtl) == AliasesOf(m.records, maxTtl);
  }
}
