/** An encoder for DNS messages: names written out, or as labels and a pointer to the rest of the question's name. */
module DnsEncoding {
  import opened Text
  import opened DnsName
  import opened DnsMessage
  import opened DnsWireName
  import opened DnsRoundTrip

  /** A name in a record: written out, or some labels before the question's name from label `skip` on. */
  datatype WireOwner = Plain(labels: Labels) | Shared(prefix: Labels, skip: nat)

  datatype WireData = Bytes(bytes: seq<byte>) | Alias(name: WireOwner) | Other(kind: nat, other: seq<byte>)

  datatype WireRecord = WireRecord(owner: WireOwner, klass: nat, ttl: nat, data: WireData)

  function OwnerLabels(w: WireOwner, question: Labels): Labels {
    match w case Plain(labels) => labels case Shared(prefix, skip) => prefix + question[if skip <= |question| then skip else |question|..]
  }

  ghost predicate ValidOwner(w: WireOwner, question: Labels) {
    && ValidLabels(OwnerLabels(w, question))
    && match w case Plain(labels) => |labels| <= 15 case Shared(_, skip) => skip <= |question| && |OwnerLabels(w, question)| <= 14
  }

  /** Where the question's name goes on from label `skip`. */
  function SuffixOffset(question: Labels, skip: nat): nat
    requires skip <= |question|
  {
    HEADER_LEN + |WireLabels(question[..skip])|
  }

  function OwnerBytes(w: WireOwner, question: Labels): seq<byte> {
    match w
    case Plain(labels) => WireName(labels)
    case Shared(prefix, skip) =>
      if skip > |question| || SuffixOffset(question, skip) >= 0x4000 then []
      else WireLabels(prefix) + PointerBytes(SuffixOffset(question, skip))
  }

  lemma {:induction false} WireNameLength(labels: Labels)
    requires labels != [] && AllValid(labels)
    ensures |WireName(labels)| == |Join(labels, DOT)| + 2
    decreases |labels|
  {
    assert labels[0] in labels && forall l :: l in labels[1..] ==> l in labels;
    if |labels| == 1 {
      assert WireName(labels[1..]) == ZERO;
    } else {
      WireNameLength(labels[1..]);
    }
  }

  lemma {:induction false} SuffixOffsetBound(question: Labels, skip: nat)
    requires ValidLabels(question) && skip <= |question|
    ensures SuffixOffset(question, skip) < HEADER_LEN + |WireName(question)| < 0x4000
  {
    WireNameLength(question);
    WireNameParts(question, skip);
    assert WireName(question[skip..]) != [];
  }

  /** What the bytes of an owner that shares the question's name are made of. */
  lemma {:induction false} SharedBytes(prefix: Labels, skip: nat, question: Labels)
    requires ValidOwner(Shared(prefix, skip), question) && ValidLabels(question)
    ensures AllValid(prefix) && AllValid(question)
    ensures skip <= |question| && SuffixOffset(question, skip) < HEADER_LEN + |WireName(question)| < 0x4000
    ensures OwnerBytes(Shared(prefix, skip), question) == WireLabels(prefix) + PointerBytes(SuffixOffset(question, skip))
  {
    SuffixOffsetBound(question, skip);
    hide Join;
    hide WireName;
    hide WireLabels;
    AllValidParts(prefix, question[skip..]);
  }

  lemma {:induction false} SharedStands(b: seq<byte>, o: nat, prefix: Labels, skip: nat, question: Labels)
    requires ValidOwner(Shared(prefix, skip), question) && ValidLabels(question) && o >= HEADER_LEN + |WireName(question)|
    requires Holds(b, HEADER_LEN, WireName(question)) && Holds(b, o, OwnerBytes(Shared(prefix, skip), question))
    ensures Stands(b, o, prefix + question[skip..], |prefix| + (|question| - skip + 2), o + |WireLabels(prefix)| + 2)
  {
    hide Holds;
    hide Stands;
    hide WireName;
    hide WireLabels;
    hide Join;
    hide PointerBytes;
    hide ValidLabels;
    hide AllValid;
    hide OwnerBytes;
    hide OwnerLabels;
    SharedBytes(prefix, skip, question);
    var at, rest, p := SuffixOffset(question, skip), question[skip..], o + |WireLabels(prefix)|;
    HoldsSplit(b, o, WireLabels(prefix), PointerBytes(at));
    SuffixStands(b, HEADER_LEN, question, skip);
    PointerStands(b, p, at, rest, |question| - skip + 1, HEADER_LEN + |WireName(question)|);
    PrefixStands(b, o, prefix, rest, |question| - skip + 2, p + 2);
  }

  lemma {:induction false} OwnerPlaced(b: seq<byte>, o: nat, w: WireOwner, question: Labels)
    requires ValidOwner(w, question) && ValidLabels(question) && o >= HEADER_LEN + |WireName(question)|
    requires Holds(b, HEADER_LEN, WireName(question)) && Holds(b, o, OwnerBytes(w, question))
    ensures NameAt(b, o, OwnerLabels(w, question), o + |OwnerBytes(w, question)|)
  {
    hide Holds;
    hide Stands;
    hide WireName;
    hide WireLabels;
    match w
    case Plain(labels) => WholeStands(b, o, labels);
    case Shared(prefix, skip) =>
      SharedStands(b, o, prefix, skip, question);
      assert OwnerLabels(w, question) == prefix + question[skip..];
      assert |PointerBytes(SuffixOffset(question, skip))| == 2 by { SuffixOffsetBound(question, skip); }
      assert Stands(b, o, OwnerLabels(w, question), |prefix| + (|question| - skip + 2), o + |OwnerBytes(w, question)|);
  }

  function DataOf(d: WireData, question: Labels): Data {
    match d case Bytes(bytes) => Address(bytes) case Alias(name) => Target(OwnerLabels(name, question)) case Other(kind, other) => Opaque(kind, other)
  }

  function RecordOf(r: WireRecord, question: Labels): Record {
    Record(OwnerLabels(r.owner, question), r.klass, r.ttl, DataOf(r.data, question))
  }

  function DataBytes(d: WireData, question: Labels): seq<byte> {
    match d case Bytes(bytes) => bytes case Alias(name) => OwnerBytes(name, question) case Other(_, other) => other
  }

  function RecordBytes(r: WireRecord, question: Labels): seq<byte> {
    OwnerBytes(r.owner, question) + (FieldBytes(RecordOf(r, question), |DataBytes(r.data, question)|) + DataBytes(r.data, question))
  }

  ghost predicate ValidData(d: WireData, question: Labels) {
    match d
    case Bytes(bytes) => |bytes| == 4 || |bytes| == 16
    case Alias(name) => ValidOwner(name, question)
    case Other(kind, other) => kind < 0x1_0000 && kind != TYPE_A && kind != TYPE_AAAA && kind != TYPE_CNAME
  }

  ghost predicate ValidRecord(r: WireRecord, question: Labels) {
    && ValidOwner(r.owner, question) && ValidData(r.data, question)
    && r.klass < 0x1_0000 && r.ttl < 0x1_0000_0000 && |DataBytes(r.data, question)| < 0x1_0000
  }

  lemma {:induction false} FieldSize(r: Record, length: nat)
    ensures |FieldBytes(r, length)| == 10
  {
    hide BigEndian;
  }

  lemma {:induction false} RecordPlaced(b: seq<byte>, o: nat, r: WireRecord, question: Labels)
    requires ValidRecord(r, question) && ValidLabels(question) && o >= HEADER_LEN + |WireName(question)|
    requires Holds(b, HEADER_LEN, WireName(question)) && Holds(b, o, RecordBytes(r, question))
    ensures RecordAt(b, o, RecordOf(r, question), o + |OwnerBytes(r.owner, question)|, o + |RecordBytes(r, question)|)
  {
    hide Holds;
    hide NameAt;
    hide FieldBytes;
    hide OwnerBytes;
    hide OwnerLabels;
    hide ValidLabels;
    hide ValidOwner;
    var owner, d := OwnerBytes(r.owner, question), DataBytes(r.data, question);
    var fields := FieldBytes(RecordOf(r, question), |d|);
    FieldSize(RecordOf(r, question), |d|);
    HoldsSlice(b, o, RecordBytes(r, question));
    HoldsSplit(b, o, owner, fields + d);
    HoldsSplit(b, o + |owner|, fields, d);
    OwnerPlaced(b, o, r.owner, question);
    match r.data
    case Bytes(_) =>
    case Alias(name) => OwnerPlaced(b, o + |owner| + 10, name, question);
    case Other(_, _) =>
  }

  function RecordsOf(records: seq<WireRecord>, question: Labels): (r: seq<Record>)
    ensures |r| == |records|
  {
    if records == [] then [] else [RecordOf(records[0], question)] + RecordsOf(records[1..], question)
  }

  function RecordsBytes(records: seq<WireRecord>, question: Labels): seq<byte> {
    if records == [] then [] else RecordBytes(records[0], question) + RecordsBytes(records[1..], question)
  }

  lemma {:induction false} RecordsPlaced(b: seq<byte>, o: nat, records: seq<WireRecord>, question: Labels)
    requires (forall r :: r in records ==> ValidRecord(r, question)) && ValidLabels(question) && o >= HEADER_LEN + |WireName(question)|
    requires Holds(b, HEADER_LEN, WireName(question)) && Holds(b, o, RecordsBytes(records, question))
    ensures RecordsAt(b, o, RecordsOf(records, question), o + |RecordsBytes(records, question)|)
    decreases |records|
  {
    hide Holds;
    hide RecordAt;
    hide RecordBytes;
    hide RecordOf;
    hide ValidRecord;
    hide ValidLabels;
    hide WireName;
    if records != [] {
      var r, rest := records[0], records[1..];
      assert r in records && forall x :: x in rest ==> x in records;
      HoldsSplit(b, o, RecordBytes(r, question), RecordsBytes(rest, question));
      RecordPlaced(b, o, r, question);
      RecordsPlaced(b, o + |RecordBytes(r, question)|, rest, question);
      var all := RecordsOf(records, question);
      assert all[0] == RecordOf(r, question) && all[1..] == RecordsOf(rest, question);
    }
  }

  /** A message to write: what it says, how its records are written, and the sections after them. */
  datatype WireMessage = WireMessage(content: DnsContent, records: seq<WireRecord>, tail: seq<byte>)

  ghost predicate ValidMessage(m: WireMessage) {
    var q := m.content.question;
    && ValidContent(m.content) && ValidLabels(q) && |q| <= 15
    && (forall r :: r in m.records ==> ValidRecord(r, q)) && m.content.records == RecordsOf(m.records, q)
  }

  function Encode(m: WireMessage): seq<byte> {
    var q := m.content.question;
    HeaderBytes(m.content) + (WireName(q) + (TypeBytes(m.content) + (RecordsBytes(m.records, q) + m.tail)))
  }

  lemma WholeHolds(b: seq<byte>)
    ensures Holds(b, 0, b)
  {}

  lemma TypeSize(m: DnsContent)
    ensures |TypeBytes(m)| == 4
  {
    hide BigEndian;
  }

  /** The encoder's bytes carry the message. */
  lemma {:induction false} EncodeCarries(m: WireMessage)
    requires ValidMessage(m)
    ensures var middle := HEADER_LEN + |WireName(m.content.question)|;
            Carries(Encode(m), m.content, middle, middle + 4 + |RecordsBytes(m.records, m.content.question)|)
  {
    hide Holds;
    hide Stands;
    hide HeaderBytes;
    hide TypeBytes;
    hide RecordsBytes;
    hide RecordsAt;
    hide ValidRecord;
    hide ValidContent;
    var b, q := Encode(m), m.content.question;
    var name, kind, records := WireName(q), TypeBytes(m.content), RecordsBytes(m.records, q);
    var middle := HEADER_LEN + |name|;
    TypeSize(m.content);
    WholeHolds(b);
    HoldsSplit(b, 0, HeaderBytes(m.content), name + (kind + (records + m.tail)));
    HoldsSplit(b, HEADER_LEN, name, kind + (records + m.tail));
    HoldsSplit(b, middle, kind, records + m.tail);
    HoldsSplit(b, middle + 4, records, m.tail);
    WholeStands(b, HEADER_LEN, q);
    assert NameAt(b, HEADER_LEN, q, middle);
    RecordsPlaced(b, middle + 4, m.records, q);
  }

  /** So parsing undoes this encoder, whatever sections follow. */
  lemma {:induction false} ParseEncode(m: WireMessage, maxTtl: nat)
    requires ValidMessage(m) && maxTtl > 0
    ensures var r := Parse(Encode(m), maxTtl);
            match KeepAll(m.content.records, Answers([], [], None), maxTtl)
            case Ok(found) => r.Ok? && r.value.message == Expected(m.content, found)
            case Err(e) => r == Err(e)
  {
    hide Carries;
    hide Parse;
    hide KeepAll;
    EncodeCarries(m);
    var middle := HEADER_LEN + |WireName(m.content.question)|;
    ParseCarried(Encode(m), m.content, middle, middle + 4 + |RecordsBytes(m.records, m.content.question)|, maxTtl);
  }
}
