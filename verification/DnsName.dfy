/** Canonical DNS names and the decoding of names with compression pointers (section 4.1.4 of RFC 1035). */
module DnsName {
  import opened Text

  const MAX_NAME_LEN := 253
  const MAX_STEPS := 16
  const DOT: byte := 46
  const HYPHEN: byte := 45

  datatype Error = Bounds | Compression | Unsupported | Name | Limit

  datatype Result<+T> = Ok(value: T) | Err(error: Error)

  predicate IsLower(c: byte) { 97 <= c <= 122 }
  predicate IsUpper(c: byte) { 65 <= c <= 90 }
  predicate IsDigit(c: byte) { 48 <= c <= 57 }

  predicate IsLabelByte(c: byte) { IsLower(c) || IsUpper(c) || IsDigit(c) || c == HYPHEN }

  function Lower(c: byte): byte { if IsUpper(c) then c + 32 else c }

  function LowerAll(part: seq<byte>): (r: seq<byte>)
    ensures |r| == |part|
    ensures forall i :: 0 <= i < |part| ==> r[i] == Lower(part[i])
  {
    if part == [] then [] else [Lower(part[0])] + LowerAll(part[1..])
  }

  predicate ValidLabel(part: seq<byte>) {
    && 0 < |part| <= 63 && (forall c :: c in part ==> IsLabelByte(c))
    && part[0] != HYPHEN && part[|part| - 1] != HYPHEN
  }

  /** `DnsName::new` accepts the text. */
  predicate Canonical(text: seq<byte>) {
    && 0 < |text| <= MAX_NAME_LEN && text[|text| - 1] != DOT
    && (forall c :: c in text ==> !IsUpper(c) && c < 128)
    && (forall part :: part in Split(text, DOT) ==> ValidLabel(part))
  }

  /** Whether the length byte starts a pointer (both top bits set), and where the pointer leads. */
  predicate IsPointer(length: byte) { length >= 192 }

  function PointerTo(high: byte, low: byte): nat
    requires IsPointer(high)
  {
    (high - 192) * 256 + low
  }

  datatype Decoded = Decoded(name: seq<byte>, consumed: nat)

  function Finish(labels: seq<seq<byte>>, consumed: nat): Result<Decoded> {
    var text := Join(labels, DOT);
    if Canonical(text) then Ok(Decoded(text, consumed)) else Err(Name)
  }

  function Or(next: Option<nat>, default: nat): nat { if next.Some? then next.value else default }

  /** What stands at the cursor: the final zero, a pointer and its target, or a label and its end. */
  datatype Token = Stop | Jump(to: nat) | Take(end: nat) | Fail(error: Error)

  function TokenAt(b: seq<byte>, cursor: nat): Token {
    if cursor >= |b| then Fail(Bounds)
    else if b[cursor] == 0 then Stop
    else if IsPointer(b[cursor]) then
      if cursor + 1 >= |b| then Fail(Bounds)
      else
        var pointer := PointerTo(b[cursor], b[cursor + 1]);
        if pointer >= |b| || pointer >= cursor then Fail(Compression) else Jump(pointer)
    else if b[cursor] > 63 then Fail(Compression)
    else
      var end := cursor + 1 + b[cursor];
      if end > |b| then Fail(Bounds)
      else if exists i :: cursor < i < end && !IsLabelByte(b[i]) then Fail(Name)
      else Take(end)
  }

  function LabelAt(b: seq<byte>, cursor: nat, end: nat): seq<byte>
    requires cursor < end <= |b|
  {
    LowerAll(b[cursor + 1..end])
  }

  /** `decode_name` from `cursor` with `steps` steps left; `next` is where the name ended before its first pointer. */
  function Decode(b: seq<byte>, cursor: nat, labels: seq<seq<byte>>, next: Option<nat>, steps: nat): Result<Decoded>
    decreases steps
  {
    if steps == 0 then Err(Compression)
    else
      match TokenAt(b, cursor)
      case Fail(e) => Err(e)
      case Stop => Finish(labels, Or(next, cursor + 1))
      case Jump(to) => Decode(b, to, labels, Some(Or(next, cursor + 2)), steps - 1)
      case Take(end) => Decode(b, end, labels + [LabelAt(b, cursor, end)], next, steps - 1)
  }

  lemma DecodeOnce(b: seq<byte>, cursor: nat, labels: seq<seq<byte>>, next: Option<nat>, steps: nat)
    requires steps > 0
    ensures Decode(b, cursor, labels, next, steps) ==
            match TokenAt(b, cursor)
            case Fail(e) => Err(e)
            case Stop => Finish(labels, Or(next, cursor + 1))
            case Jump(to) => Decode(b, to, labels, Some(Or(next, cursor + 2)), steps - 1)
            case Take(end) => Decode(b, end, labels + [LabelAt(b, cursor, end)], next, steps - 1)
  {
    hide TokenAt;
  }

  function DecodeName(b: seq<byte>, start: nat): Result<Decoded> { Decode(b, start, [], None, MAX_STEPS) }

  /** The checks of one step of `decode_name`. */
  method Classify(b: seq<byte>, cursor: nat) returns (t: Token)
    ensures t == TokenAt(b, cursor)
  {
    if cursor >= |b| {
      return Fail(Bounds);
    }
    var length := b[cursor];
    if length == 0 {
      return Stop;
    }
    if IsPointer(length) {
      if cursor + 1 >= |b| {
        return Fail(Bounds);
      }
      var pointer := PointerTo(length, b[cursor + 1]);
      return if pointer >= |b| || pointer >= cursor then Fail(Compression) else Jump(pointer);
    }
    if length > 63 {
      return Fail(Compression);
    }
    var end := cursor + 1 + length;
    if end > |b| {
      return Fail(Bounds);
    }
    for i := cursor + 1 to end
      invariant forall j :: cursor < j < i ==> IsLabelByte(b[j])
    {
      if !IsLabelByte(b[i]) {
        return Fail(Name);
      }
    }
    return Take(end);
  }

  /** The loop of `decode_name`. */
  method DecodeNameLoop(b: seq<byte>, start: nat) returns (r: Result<Decoded>)
    ensures r == DecodeName(b, start)
  {
    hide TokenAt;
    var labels: seq<seq<byte>> := [];
    var cursor: nat := start;
    var next: Option<nat> := None;
    for step := 0 to MAX_STEPS
      invariant Decode(b, cursor, labels, next, MAX_STEPS - step) == DecodeName(b, start)
    {
      var token := Classify(b, cursor);
      match token
      case Fail(error) =>
        return Err(error);
      case Stop =>
        return Finish(labels, if next.Some? then next.value else cursor + 1);
      case Jump(to) =>
        if next.None? {
          next := Some(cursor + 2);
        }
        cursor := to;
      case Take(end) =>
        TokenBounds(b, cursor);
        labels := labels + [LabelAt(b, cursor, end)];
        cursor := end;
    }
    return Err(Compression);
  }

  lemma TokenBounds(b: seq<byte>, cursor: nat)
    ensures TokenAt(b, cursor).Take? ==> cursor < TokenAt(b, cursor).end <= |b|
  {}

  // ---------------------------------------------------------------- which bytes a name depends on

  /** The first `r` bytes of both are there and are the same. */
  ghost predicate Agree(b: seq<byte>, c: seq<byte>, r: nat) {
    r <= |b| && r <= |c| && forall i :: 0 <= i < r ==> b[i] == c[i]
  }

  /** The end of the bytes a token is made of. */
  function TokenEnd(t: Token, cursor: nat): nat {
    match t case Stop => cursor + 1 case Jump(_) => cursor + 2 case Take(end) => end case Fail(_) => cursor
  }

  lemma TokenReach(b: seq<byte>, cursor: nat, c: seq<byte>)
    requires !TokenAt(b, cursor).Fail?
    ensures var t := TokenAt(b, cursor);
            && cursor < TokenEnd(t, cursor) <= |b|
            && (Agree(b, c, TokenEnd(t, cursor)) ==> TokenAt(c, cursor) == t)
            && (t.Take? && Agree(b, c, t.end) ==> LabelAt(c, cursor, t.end) == LabelAt(b, cursor, t.end))
            && (t.Jump? ==> IsPointer(b[cursor]) && t.to < cursor)
            && (t.Take? ==> forall i :: cursor <= i < t.end ==> !IsPointer(b[i]))
  {
    var t := TokenAt(b, cursor);
    if t.Take? && Agree(b, c, t.end) {
      assert b[cursor + 1..t.end] == c[cursor + 1..t.end];
    }
  }

  lemma TokenCut(b: seq<byte>, cursor: nat, n: nat)
    requires !TokenAt(b, cursor).Fail? && n <= |b| && n < TokenEnd(TokenAt(b, cursor), cursor)
    ensures TokenAt(b[..n], cursor) == Fail(Bounds)
  {}

  /** Once a pointer was followed, decoding stays at or before it: its first byte is no label byte. */
  ghost predicate Behind(b: seq<byte>, cursor: nat, next: Option<nat>) {
    next.Some? ==> 2 <= next.value <= |b| && IsPointer(b[next.value - 2]) && cursor <= next.value - 2
  }

  /** A decoded name depends on the bytes before its end only, wherever its pointers lead. */
  lemma {:induction false} DecodeReach(b: seq<byte>, cursor: nat, labels: seq<seq<byte>>, next: Option<nat>, steps: nat, c: seq<byte>)
    requires Decode(b, cursor, labels, next, steps).Ok? && Behind(b, cursor, next)
    ensures var e := Decode(b, cursor, labels, next, steps).value.consumed;
            && cursor < e <= |b| && (next.Some? ==> e == next.value)
            && (Agree(b, c, e) ==> Decode(c, cursor, labels, next, steps) == Decode(b, cursor, labels, next, steps))
    decreases steps
  {
    hide TokenAt;
    hide LabelAt;
    hide Finish;
    TokenReach(b, cursor, c);
    match TokenAt(b, cursor)
    case Stop => FinishEnd(labels, Or(next, cursor + 1));
    case Jump(to) => DecodeReach(b, to, labels, Some(Or(next, cursor + 2)), steps - 1, c);
    case Take(end) => DecodeReach(b, end, labels + [LabelAt(b, cursor, end)], next, steps - 1, c);
  }

  lemma FinishEnd(labels: seq<seq<byte>>, consumed: nat)
    ensures Finish(labels, consumed).Ok? ==> Finish(labels, consumed).value.consumed == consumed
  {}

  /** Cut anywhere before its end, the name is rejected as truncated. */
  lemma {:induction false} DecodeCut(b: seq<byte>, cursor: nat, labels: seq<seq<byte>>, steps: nat, n: nat)
    requires Decode(b, cursor, labels, None, steps).Ok? && n < Decode(b, cursor, labels, None, steps).value.consumed
    requires n <= |b|
    ensures Decode(b[..n], cursor, labels, None, steps) == Err(Bounds)
    decreases steps
  {
    hide TokenAt;
    hide LabelAt;
    hide Finish;
    var t := TokenAt(b, cursor);
    TokenReach(b, cursor, b[..n]);
    if n < TokenEnd(t, cursor) {
      TokenCut(b, cursor, n);
    } else {
      match t
      case Stop => FinishEnd(labels, cursor + 1);
      case Jump(to) => DecodeReach(b, to, labels, Some(cursor + 2), steps - 1, b);
      case Take(end) => DecodeCut(b, end, labels + [LabelAt(b, cursor, end)], steps - 1, n);
    }
  }

  /** Reads exactly up to its end: the name decodes from a prefix of `n` bytes if and only if `n` reaches that end. */
  lemma DecodeNameExact(b: seq<byte>, start: nat, n: nat)
    requires DecodeName(b, start).Ok? && n <= |b|
    ensures start < DecodeName(b, start).value.consumed <= |b|
    ensures DecodeName(b[..n], start) == if n >= DecodeName(b, start).value.consumed then DecodeName(b, start) else Err(Bounds)
  {
    DecodeReach(b, start, [], None, MAX_STEPS, b[..n]);
    if n < DecodeName(b, start).value.consumed {
      DecodeCut(b, start, [], MAX_STEPS, n);
    }
  }
}
