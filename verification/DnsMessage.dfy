/** DNS messages (sections 4.1.1 to 4.1.3 of RFC 1035) and their parser. */
module DnsMessage {
  import opened Text
  import opened DnsName
  import opened DnsCodes

  const HEADER_LEN := 12
  const MAX_ANSWERS := 16
  const MAX_CNAMES := 8
  const MAX_TTL := 86_400
  const CLASS_IN := 1
  const TYPE_A := 1
  const TYPE_CNAME := 5
  const TYPE_AAAA := 28

  datatype Answer = Answer(name: seq<byte>, address: seq<byte>, ttl: nat)

  datatype Cname = Cname(alias: seq<byte>, canonical: seq<byte>, ttl: nat)

  /** What the answer records seen so far have contributed. */
  datatype Answers = Answers(answers: seq<Answer>, cnames: seq<Cname>, ttl: Option<nat>)

  datatype Message = Message(
    id: nat, response: bool, truncated: bool, name: seq<byte>, queryType: QueryType, code: ResponseCode, found: Answers)

  /** A record without its data: where the data begins and ends. */
  datatype Head = Head(owner: seq<byte>, kind: nat, klass: nat, ttl: nat, dataAt: nat, dataEnd: nat)

  datatype Question = Question(name: seq<byte>, queryType: QueryType, end: nat)

  /** `reach` is one past the last byte that was looked at; it is not part of the result. */
  datatype Absorbed = Absorbed(found: Answers, reach: nat)

  datatype Records = Records(found: Answers, end: nat, reach: nat)

  datatype Parsed = Parsed(message: Message, end: nat, reach: nat)

  function U16(b: seq<byte>, o: nat): nat
    requires o + 2 <= |b|
  {
    256 * (b[o] as int) + b[o + 1] as int
  }

  function U32(b: seq<byte>, o: nat): nat
    requires o + 4 <= |b|
  {
    65536 * U16(b, o) + U16(b, o + 2)
  }

  function ReadU16(b: seq<byte>, o: nat): Result<nat> { if o + 2 <= |b| then Ok(U16(b, o)) else Err(Bounds) }

  function ReadU32(b: seq<byte>, o: nat): Result<nat> { if o + 4 <= |b| then Ok(U32(b, o)) else Err(Bounds) }

  function QueryTypeOf(code: nat): Result<QueryType> {
    if code == TYPE_A then Ok(A) else if code == TYPE_AAAA then Ok(Aaaa) else Err(Unsupported)
  }

  function ResponseCodeOf(code: nat): Result<ResponseCode> {
    if code == 0 then Ok(NoError) else if code == 1 then Ok(FormErr) else if code == 2 then Ok(ServFail)
    else if code == 3 then Ok(NxDomain) else if code == 4 then Ok(NotImp) else if code == 5 then Ok(Refused)
    else Err(Unsupported)
  }

  function MinTtl(ttl: Option<nat>, t: nat): Option<nat> { Some(if ttl.Some? then Min(ttl.value, t) else t) }

  /** The name, type, class, clamped TTL and data bounds of the record at `offset`. */
  function ReadHead(b: seq<byte>, offset: nat, maxTtl: nat): Result<Head> {
    var owner := DecodeName(b, offset);
    if owner.Err? then Err(owner.error)
    else
      var o := owner.value.consumed;
      if o + 10 > |b| || o + 10 + U16(b, o + 8) > |b| then Err(Bounds)
      else Ok(Head(owner.value.name, U16(b, o), U16(b, o + 2), Min(U32(b, o + 4), maxTtl), o + 10, o + 10 + U16(b, o + 8)))
  }

  function KeepAddress(h: Head, found: Answers, address: seq<byte>): Result<Answers> {
    if h.ttl > MAX_TTL then Err(Limit)
    else Ok(found.(answers := found.answers + [Answer(h.owner, address, h.ttl)], ttl := MinTtl(found.ttl, h.ttl)))
  }

  function KeepCname(h: Head, found: Answers, canonical: seq<byte>): Result<Answers> {
    if h.ttl > MAX_TTL then Err(Limit)
    else Ok(found.(cnames := found.cnames + [Cname(h.owner, canonical, h.ttl)], ttl := MinTtl(found.ttl, h.ttl)))
  }

  function WithReach(r: Result<Answers>, reach: nat): Result<Absorbed> {
    match r case Ok(found) => Ok(Absorbed(found, reach)) case Err(e) => Err(e)
  }

  /** The match on record type and data length, arm by arm. */
  function Absorb(b: seq<byte>, h: Head, found: Answers): Result<Absorbed>
    requires h.dataAt <= h.dataEnd <= |b|
  {
    var len := h.dataEnd - h.dataAt;
    if h.klass != CLASS_IN || h.ttl == 0 then Ok(Absorbed(found, h.dataEnd))
    else if ((h.kind == TYPE_A && len == 4) || (h.kind == TYPE_AAAA && len == 16)) && |found.answers| < MAX_ANSWERS then
      WithReach(KeepAddress(h, found, b[h.dataAt..h.dataEnd]), h.dataEnd)
    else if h.kind == TYPE_CNAME && |found.cnames| < MAX_CNAMES then
      var target := DecodeName(b, h.dataAt);
      if target.Err? then Err(target.error)
      else if target.value.consumed > h.dataEnd && !IsPointer(At(b, h.dataAt)) then Err(Bounds)
      else WithReach(KeepCname(h, found, target.value.name), Max(h.dataEnd, target.value.consumed))
    else if h.kind == TYPE_A || h.kind == TYPE_AAAA then Err(Bounds)
    else Ok(Absorbed(found, h.dataEnd))
  }

  function ParseRecords(b: seq<byte>, offset: nat, count: nat, found: Answers, maxTtl: nat): Result<Records>
    decreases count
  {
    if count == 0 then Ok(Records(found, offset, offset))
    else
      var head := ReadHead(b, offset, maxTtl);
      if head.Err? then Err(head.error)
      else
        var a := Absorb(b, head.value, found);
        if a.Err? then Err(a.error)
        else
          var rest := ParseRecords(b, head.value.dataEnd, count - 1, a.value.found, maxTtl);
          if rest.Err? then rest else Ok(rest.value.(reach := Max(a.value.reach, rest.value.reach)))
  }

  function ParseQuestion(b: seq<byte>): Result<Question> {
    var name := DecodeName(b, HEADER_LEN);
    if name.Err? then Err(name.error)
    else
      var o := name.value.consumed;
      if o + 2 > |b| then Err(Bounds)
      else
        var queryType := QueryTypeOf(U16(b, o));
        if queryType.Err? then Err(queryType.error)
        else if o + 4 > |b| then Err(Bounds)
        else if U16(b, o + 2) != CLASS_IN then Err(Unsupported)
        else Ok(Question(name.value.name, queryType.value, o + 4))
  }

  function Parse(b: seq<byte>, maxTtl: nat): Result<Parsed> {
    if |b| < HEADER_LEN || maxTtl == 0 then Err(Bounds)
    else
      var flags, count := U16(b, 2), U16(b, 6);
      if flags / 2048 % 16 != 0 || U16(b, 4) != 1 || count > MAX_ANSWERS + MAX_CNAMES then Err(Unsupported)
      else
        var question := ParseQuestion(b);
        if question.Err? then Err(question.error)
        else
          var q := question.value;
          var code := ResponseCodeOf(flags % 16);
          if code.Err? then Err(code.error)
          else
            var records := ParseRecords(b, q.end, count, Answers([], [], None), maxTtl);
            if records.Err? then Err(records.error)
            else
              var r := records.value;
              Ok(Parsed(
                Message(U16(b, 0), flags >= 32768, flags / 512 % 2 == 1, q.name, q.queryType, code.value, r.found),
                r.end, r.reach))
  }

  // ---------------------------------------------------------------- the loops

  method AbsorbRecord(b: seq<byte>, h: Head, found: Answers) returns (r: Result<Answers>)
    requires h.dataAt <= h.dataEnd <= |b|
    ensures r == match Absorb(b, h, found) case Ok(a) => Ok(a.found) case Err(e) => Err(e)
  {
    if h.klass != CLASS_IN || h.ttl == 0 {
      return Ok(found);
    }
    var len := h.dataEnd - h.dataAt;
    if h.kind == TYPE_A && len == 4 && |found.answers| < MAX_ANSWERS {
      return KeepAddress(h, found, b[h.dataAt..h.dataEnd]);
    } else if h.kind == TYPE_AAAA && len == 16 && |found.answers| < MAX_ANSWERS {
      return KeepAddress(h, found, b[h.dataAt..h.dataEnd]);
    } else if h.kind == TYPE_CNAME && |found.cnames| < MAX_CNAMES {
      var target := DecodeNameLoop(b, h.dataAt);
      match target
      case Err(error) => return Err(error);
      case Ok(d) =>
        DecodeNameExact(b, h.dataAt, |b|);
        if d.consumed > h.dataEnd && !IsPointer(b[h.dataAt]) {
          return Err(Bounds);
        }
        return KeepCname(h, found, d.name);
    } else if h.kind == TYPE_A || h.kind == TYPE_AAAA {
      return Err(Bounds);
    }
    return Ok(found);
  }

  method ReadRecordHead(b: seq<byte>, offset: nat, maxTtl: nat) returns (r: Result<Head>)
    ensures r == ReadHead(b, offset, maxTtl)
    ensures r.Ok? ==> r.value.dataAt <= r.value.dataEnd <= |b|
  {
    hide DecodeName;
    hide U16;
    hide U32;
    var name := DecodeNameLoop(b, offset);
    if name.Err? {
      return Err(name.error);
    }
    var o := name.value.consumed;
    var kind, klass, ttl, len := ReadU16(b, o), ReadU16(b, o + 2), ReadU32(b, o + 4), ReadU16(b, o + 8);
    if kind.Err? || klass.Err? || ttl.Err? || len.Err? {
      return Err(Bounds);
    }
    var dataEnd := o + 10 + len.value;
    if dataEnd > |b| {
      return Err(Bounds);
    }
    return Ok(Head(name.value.name, kind.value, klass.value, Min(ttl.value, maxTtl), o + 10, dataEnd));
  }

  /** `parse_message`: the answer loop updates the offset and the collected answers. */
  method ParseMessage(b: seq<byte>, maxTtl: nat) returns (r: Result<Message>)
    ensures r == match Parse(b, maxTtl) case Ok(p) => Ok(p.message) case Err(e) => Err(e)
  {
    if |b| < HEADER_LEN || maxTtl == 0 {
      return Err(Bounds);
    }
    var flags, count := U16(b, 2), U16(b, 6);
    if flags / 2048 % 16 != 0 || U16(b, 4) != 1 || count > MAX_ANSWERS + MAX_CNAMES {
      return Err(Unsupported);
    }
    var question := ParseQuestion(b);
    if question.Err? {
      return Err(question.error);
    }
    var q := question.value;
    var code := ResponseCodeOf(flags % 16);
    if code.Err? {
      return Err(code.error);
    }
    var found := ParseAnswers(b, q.end, count, maxTtl);
    if found.Err? {
      return Err(found.error);
    }
    return Ok(Message(U16(b, 0), flags >= 32768, flags / 512 % 2 == 1, q.name, q.queryType, code.value, found.value));
  }

  ghost predicate Continues(whole: Result<Records>, rest: Result<Records>) {
    match (whole, rest)
    case (Ok(w), Ok(r)) => w.found == r.found && w.end == r.end
    case (Err(e), Err(f)) => e == f
    case _ => false
  }

  method ParseAnswers(b: seq<byte>, start: nat, count: nat, maxTtl: nat) returns (r: Result<Answers>)
    ensures r == match ParseRecords(b, start, count, Answers([], [], None), maxTtl) case Ok(p) => Ok(p.found) case Err(e) => Err(e)
  {
    hide ReadHead;
    hide Absorb;
    var found, offset: nat := Answers([], [], None), start;
    for i := 0 to count
      invariant Continues(ParseRecords(b, start, count, Answers([], [], None), maxTtl), ParseRecords(b, offset, count - i, found, maxTtl))
    {
      var head := ReadRecordHead(b, offset, maxTtl);
      if head.Err? {
        return Err(head.error);
      }
      var next := AbsorbRecord(b, head.value, found);
      if next.Err? {
        return Err(next.error);
      }
      found, offset := next.value, head.value.dataEnd;
    }
    return Ok(found);
  }
}
