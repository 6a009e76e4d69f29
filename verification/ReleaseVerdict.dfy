/** What becomes of reported images, told from the reports: the digest they name, why they are refused, and their order. */
module ReleaseVerdict {
  import opened Text
  import opened Sorting
  import opened Release
  import opened ReleaseOrder

  // ---------------------------------------------------------------- image ids

  /** The value of a hexadecimal digit in either case. */
  ghost predicate DigitIs(c: char, n: int) {
    0 <= n < 16 && (c == "0123456789abcdef"[n] || c == "0123456789ABCDEF"[n])
  }

  /** The text spells the bytes, two digits each. */
  ghost predicate Spells(text: string, bytes: seq<byte>) {
    |text| == 2 * |bytes| && forall i :: 0 <= i < |bytes| ==> DigitIs(text[2 * i], bytes[i] / 16) && DigitIs(text[2 * i + 1], bytes[i] % 16)
  }

  /** The id ends in the mark and the 64 digits of the digest. */
  ghost predicate Names(imageId: string, digest: Digest) {
    exists prefix, digits :: imageId == prefix + "sha256:" + digits && Spells(digits, digest)
  }

  lemma DigitExact(c: char, n: int)
    requires 0 <= n < 16
    ensures DigitIs(c, n) <==> IsHex(c) && HexValue(c) == n
  {}

  lemma SomeDigit(c: char)
    requires IsHex(c)
    ensures DigitIs(c, HexValue(c))
  {
    DigitExact(c, HexValue(c));
  }

  lemma {:induction false} SpelledHex(text: string, bytes: seq<byte>)
    requires Spells(text, bytes)
    ensures AllHex(text)
  {
    forall c | c in text ensures IsHex(c) {
      var i :| 0 <= i < |text| && text[i] == c;
      var k := i / 2;
      DigitExact(text[2 * k], bytes[k] / 16);
      DigitExact(text[2 * k + 1], bytes[k] % 16);
      assert i == 2 * k || i == 2 * k + 1;
    }
  }

  lemma TwoDigits(a: char, c: char, n: byte)
    requires IsHex(a) && IsHex(c)
    ensures DigitIs(a, n / 16) && DigitIs(c, n % 16) <==> n == 16 * HexValue(a) + HexValue(c)
  {
    hide HexValue;
    hide IsHex;
    hide DigitIs;
    DigitExact(a, n / 16);
    DigitExact(c, n % 16);
  }

  lemma {:induction false} HexStep(text: string)
    requires |text| >= 2 && |text| % 2 == 0 && AllHex(text)
    ensures AllHex(text[2..]) && IsHex(text[0]) && IsHex(text[1])
    ensures HexBytes(text) == [16 * HexValue(text[0]) + HexValue(text[1])] + HexBytes(text[2..])
  {
    hide IsHex;
    hide HexValue;
    assert text[0] in text && text[1] in text;
  }

  lemma {:induction false} SpellsExact(text: string, bytes: seq<byte>)
    requires |text| % 2 == 0 && AllHex(text)
    ensures Spells(text, bytes) <==> bytes == HexBytes(text)
    decreases |text|
  {
    if text != [] {
      HexStep(text);
      if bytes != [] {
        hide HexBytes;
        hide HexValue;
        hide IsHex;
        hide AllHex;
        hide DigitIs;
        hide Spells;
        TwoDigits(text[0], text[1], bytes[0]);
        SpellsExact(text[2..], bytes[1..]);
        SpellsFront(text, bytes);
        assert bytes == [bytes[0]] + bytes[1..];
      }
    }
  }

  lemma SpellsFront(text: string, bytes: seq<byte>)
    requires |text| >= 2 && bytes != []
    ensures Spells(text, bytes) <==> DigitIs(text[0], bytes[0] / 16) && DigitIs(text[1], bytes[0] % 16) && Spells(text[2..], bytes[1..])
  {
    hide DigitIs;
    var rest, more := text[2..], bytes[1..];
    if Spells(rest, more) && DigitIs(text[0], bytes[0] / 16) && DigitIs(text[1], bytes[0] % 16) {
      forall i | 0 <= i < |bytes| ensures DigitIs(text[2 * i], bytes[i] / 16) && DigitIs(text[2 * i + 1], bytes[i] % 16) {
        if i > 0 {
          assert rest[2 * (i - 1)] == text[2 * i] && rest[2 * (i - 1) + 1] == text[2 * i + 1] && more[i - 1] == bytes[i];
        }
      }
    }
    if Spells(text, bytes) {
      forall i | 0 <= i < |more| ensures DigitIs(rest[2 * i], more[i] / 16) && DigitIs(rest[2 * i + 1], more[i] % 16) {
        assert rest[2 * i] == text[2 * (i + 1)] && rest[2 * i + 1] == text[2 * (i + 1) + 1] && more[i] == bytes[i + 1];
      }
    }
  }

  /** An image id is read if and only if it names a digest, and as that digest. */
  lemma {:induction false} ImageIdExact(value: string, digest: Digest)
    ensures ParseImageId(value) == Ok(digest) <==> Names(value, digest)
  {
    hide HexBytes;
    hide Spells;
    var mark := LastMark(value, |value|);
    if mark.Some? {
      var prefix, digits := value[..mark.value], value[mark.value + |MARK|..];
      assert value == prefix + "sha256:" + digits;
      if |digits| == 64 && AllHex(digits) {
        SpellsExact(digits, digest);
      }
    }
    if Names(value, digest) {
      var prefix, digits :| value == prefix + "sha256:" + digits && Spells(digits, digest);
      NamedMark(value, prefix, digits, digest);
    }
  }

  lemma {:induction false} NamedMark(value: string, prefix: string, digits: string, digest: Digest)
    requires value == prefix + "sha256:" + digits && Spells(digits, digest)
    ensures LastMark(value, |value|) == Some(|prefix|) && value[|prefix| + |MARK|..] == digits
    ensures |digits| == 64 && AllHex(digits)
  {
    SpelledHex(digits, digest);
    assert value[|prefix|..|prefix| + |MARK|] == MARK;
    assert MarkAt(value, |prefix|);
    assert value[|prefix| + |MARK|..] == digits;
    forall i: nat | i > |prefix| ensures !MarkAt(value, i) {
      if i + |MARK| <= |value| {
        assert value[i..i + |MARK|][0] == value[i];
        if i < |prefix| + |MARK| {
          assert value[i] == MARK[i - |prefix|];
        } else {
          assert value[i] == digits[i - |prefix| - |MARK|];
          assert value[i] in digits;
        }
      }
    }
    assert LastMark(value, |value|) == Some(|prefix|);
  }

  // ---------------------------------------------------------------- refusals

  ghost predicate Unreadable(r: Reported) { forall d: Digest :: !Names(r.imageId, d) }

  predicate Unnamed(r: Reported) { r.name == "" || |Utf8(r.name)| > 253 }

  /** An image that is there is a text of at most 512 bytes with something at either end. */
  predicate Misquoted(r: Reported) {
    r.image.Some? && (r.image.value == "" || |Utf8(r.image.value)| > 512
                      || IsWhitespace(r.image.value[0]) || IsWhitespace(r.image.value[|r.image.value| - 1]))
  }

  ghost predicate Repeated(reports: seq<Reported>) {
    exists i, j :: 0 <= i < j < |reports| && reports[i].category == reports[j].category && reports[i].name == reports[j].name
  }

  /** Why the reports are refused, the first reason that holds. */
  ghost function Refusal(reports: seq<Reported>): Option<ReleaseError> {
    if exists r :: r in reports && Unreadable(r) then Some(InvalidImageId)
    else if reports == [] || |reports| > 64 then Some(InvalidContainerCount)
    else if exists r :: r in reports && Unnamed(r) then Some(InvalidContainerName)
    else if exists r :: r in reports && Misquoted(r) then Some(InvalidImageReference)
    else if Repeated(reports) then Some(DuplicateContainer)
    else None
  }

  lemma ReadableExact(r: Reported)
    ensures ParseImageId(r.imageId).Ok? <==> !Unreadable(r)
    ensures ParseImageId(r.imageId).Ok? ==> Names(r.imageId, ParseImageId(r.imageId).value)
  {
    hide ParseImageId;
    if ParseImageId(r.imageId).Ok? {
      ImageIdExact(r.imageId, ParseImageId(r.imageId).value);
    }
    if !Unreadable(r) {
      var d: Digest :| Names(r.imageId, d);
      ImageIdExact(r.imageId, d);
    }
  }

  lemma {:induction false} ResolveRefuses(reports: seq<Reported>)
    ensures Resolve(reports).Ok? <==> !exists r :: r in reports && Unreadable(r)
  {
    hide ParseImageId;
    hide Unreadable;
    ResolveIs(reports);
    forall r | r in reports ensures ParseImageId(r.imageId).Ok? <==> !Unreadable(r) {
      ReadableExact(r);
    }
  }

  ghost predicate Matching(reports: seq<Reported>, values: seq<Component>) {
    |values| == |reports| && forall i :: 0 <= i < |reports| ==>
      values[i].category == reports[i].category && values[i].name == reports[i].name && values[i].image == reports[i].image
  }

  lemma NamesRefuse(reports: seq<Reported>, values: seq<Component>)
    requires Matching(reports, values)
    ensures (exists c :: c in values && BadName(c)) <==> exists r :: r in reports && Unnamed(r)
  {
    hide Utf8;
    if c :| c in values && BadName(c) {
      var i :| 0 <= i < |values| && values[i] == c;
      assert reports[i] in reports && Unnamed(reports[i]);
    }
    if r :| r in reports && Unnamed(r) {
      var i :| 0 <= i < |reports| && reports[i] == r;
      assert values[i] in values && BadName(values[i]);
    }
  }

  lemma ImagesRefuse(reports: seq<Reported>, values: seq<Component>)
    requires Matching(reports, values)
    ensures (exists c :: c in values && BadImage(c)) <==> exists r :: r in reports && Misquoted(r)
  {
    hide Utf8;
    hide IsWhitespace;
    if c :| c in values && BadImage(c) {
      var i :| 0 <= i < |values| && values[i] == c;
      assert reports[i] in reports && Misquoted(reports[i]);
    }
    if r :| r in reports && Misquoted(r) {
      var i :| 0 <= i < |reports| && reports[i] == r;
      assert values[i] in values && BadImage(values[i]);
    }
  }

  lemma NamesRepeat(reports: seq<Reported>, values: seq<Component>)
    requires Matching(reports, values)
    ensures Duplicated(values) <==> Repeated(reports)
  {
    if Duplicated(values) {
      var i, j :| 0 <= i < j < |values| && SameName(values[i], values[j]);
      assert reports[i].name == reports[j].name;
    }
    if Repeated(reports) {
      var i, j :| 0 <= i < j < |reports| && reports[i].category == reports[j].category && reports[i].name == reports[j].name;
      assert SameName(values[i], values[j]);
    }
  }

  lemma ComponentsRefuse(reports: seq<Reported>, values: seq<Component>)
    requires Matching(reports, values)
    ensures FirstError(values) ==
            if reports == [] || |reports| > 64 then Some(InvalidContainerCount)
            else if exists r :: r in reports && Unnamed(r) then Some(InvalidContainerName)
            else if exists r :: r in reports && Misquoted(r) then Some(InvalidImageReference)
            else None
  {
    hide BadName;
    hide BadImage;
    hide Unnamed;
    hide Misquoted;
    NamesRefuse(reports, values);
    ImagesRefuse(reports, values);
  }

  lemma ArrangeError(values: seq<Component>)
    ensures FirstError(values).Some? ==> Arrange(values) == Err(FirstError(values).value)
  {}

  /** A release is built from reported images exactly when none of these reasons holds, and otherwise the first is given. */
  lemma {:induction false} FromImagesExact(reports: seq<Reported>, hash: seq<byte> -> Digest)
    ensures match Refusal(reports)
            case Some(error) => FromImages(reports, hash) == Err(error)
            case None =>
              && FromImages(reports, hash).Ok?
              && var r := FromImages(reports, hash).value;
                 && r.version == 1 && r.digest == hash(Preimage(r.containers)) && Sorted(r.containers, Leq)
                 && Resolve(reports).Ok? && multiset(r.containers) == multiset(Resolve(reports).value)
  {
    hide ParseImageId;
    hide Unreadable;
    hide Unnamed;
    hide Misquoted;
    hide Arrange;
    hide Resolve;
    hide FirstError;
    hide Duplicated;
    hide Repeated;
    ResolveIs(reports);
    ResolveRefuses(reports);
    if Resolve(reports).Ok? {
      var values := Resolve(reports).value;
      ComponentsRefuse(reports, values);
      NamesRepeat(reports, values);
      ArrangeError(values);
      ArrangeExact(values);
    }
  }

  // ---------------------------------------------------------------- the order

  /** The first string is a beginning of the second, or has the smaller byte where they first differ. */
  ghost predicate Before(a: seq<byte>, b: seq<byte>) {
    a <= b || exists i :: 0 <= i < |a| && i < |b| && a[..i] == b[..i] && a[i] < b[i]
  }

  lemma FirstSame(a: seq<byte>, b: seq<byte>)
    ensures forall i :: 0 < i <= |a| && i <= |b| && a[..i] == b[..i] ==> a[0] == b[0]
  {
    forall i | 0 < i <= |a| && i <= |b| && a[..i] == b[..i] ensures a[0] == b[0] {
      assert a[..i][0] == b[..i][0];
    }
  }

  lemma BeforeStep(a: seq<byte>, b: seq<byte>)
    requires a != [] && b != []
    ensures Before(a, b) <==> a[0] < b[0] || (a[0] == b[0] && Before(a[1..], b[1..]))
  {
    var x, y := a[1..], b[1..];
    FirstSame(a, b);
    assert a == [a[0]] + x && b == [b[0]] + y;
    if Before(a, b) && !(a <= b) {
      var i :| 0 <= i < |a| && i < |b| && a[..i] == b[..i] && a[i] < b[i];
      if i > 0 {
        assert x[..i - 1] == a[..i][1..] && y[..i - 1] == b[..i][1..];
        assert x[i - 1] < y[i - 1];
      }
    }
    if a[0] < b[0] {
      assert a[..0] == b[..0];
    } else if a[0] == b[0] && Before(x, y) && !(x <= y) {
      var i :| 0 <= i < |x| && i < |y| && x[..i] == y[..i] && x[i] < y[i];
      assert a[..i + 1] == [a[0]] + x[..i] && b[..i + 1] == [b[0]] + y[..i];
      assert a[i + 1] < b[i + 1];
    }
  }

  lemma {:induction false} LexExact(a: seq<byte>, b: seq<byte>)
    ensures LexLeq(a, b) <==> Before(a, b)
    decreases |a|
  {
    if a != [] && b != [] {
      hide Before;
      BeforeStep(a, b);
      LexExact(a[1..], b[1..]);
    }
  }

  /** Components come by category, then by name, then by image with none first, then by digest. */
  lemma {:induction false} OrderExact(a: Component, b: Component)
    ensures Leq(a, b) <==>
            if a.category != b.category then a.category.Init?
            else if a.name != b.name then Before(Utf8(a.name), Utf8(b.name))
            else if a.image != b.image then a.image.None? || (b.image.Some? && Before(Utf8(a.image.value), Utf8(b.image.value)))
            else Before(a.digest, b.digest)
  {
    hide Utf8;
    hide Before;
    hide LexLeq;
    var x, y := Keys(a), Keys(b);
    OrderSteps(x, y);
    CategoryOrder(a.category, b.category);
    TextOrder(a.name, b.name);
    ImageOrder(a.image, b.image);
    LexExact(a.digest, b.digest);
    LexTotal(a.digest, b.digest);
  }

  lemma {:induction false} OrderSteps(x: seq<seq<byte>>, y: seq<seq<byte>>)
    requires |x| == 4 == |y|
    ensures ListLeq(x, y) <==>
            if x[0] != y[0] then LexLeq(x[0], y[0]) else if x[1] != y[1] then LexLeq(x[1], y[1])
            else if x[2] != y[2] then LexLeq(x[2], y[2]) else x[3] == y[3] || LexLeq(x[3], y[3])
  {
    hide LexLeq;
    assert ListLeq(x, y) == if x[0] == y[0] then ListLeq(x[1..], y[1..]) else LexLeq(x[0], y[0]);
    var u, v := x[1..], y[1..];
    assert ListLeq(u, v) == if u[0] == v[0] then ListLeq(u[1..], v[1..]) else LexLeq(u[0], v[0]);
    var p, q := u[1..], v[1..];
    assert ListLeq(p, q) == if p[0] == q[0] then ListLeq(p[1..], q[1..]) else LexLeq(p[0], q[0]);
    var s, t := p[1..], q[1..];
    assert ListLeq(s, t) == if s[0] == t[0] then ListLeq(s[1..], t[1..]) else LexLeq(s[0], t[0]);
    assert s[1..] == [];
  }

  lemma CategoryOrder(a: Category, b: Category)
    ensures var x: seq<byte>, y: seq<byte> := [if a.Init? then 0 else 1], [if b.Init? then 0 else 1];
            (x == y <==> a == b) && (a != b ==> (LexLeq(x, y) <==> a.Init?))
  {}

  lemma {:induction false} TextOrder(a: string, b: string)
    ensures Utf8(a) == Utf8(b) <==> a == b
    ensures LexLeq(Utf8(a), Utf8(b)) <==> Before(Utf8(a), Utf8(b))
  {
    if Utf8(a) == Utf8(b) {
      Utf8Injective(a, b);
    }
    LexExact(Utf8(a), Utf8(b));
  }

  lemma {:induction false} ImageOrder(a: Option<string>, b: Option<string>)
    ensures var x: seq<byte>, y: seq<byte> := if a.None? then [] else [1] + Utf8(a.value), if b.None? then [] else [1] + Utf8(b.value);
            && (x == y <==> a == b)
            && (a != b ==> (LexLeq(x, y) <==> a.None? || (b.Some? && Before(Utf8(a.value), Utf8(b.value)))))
  {
    if a.Some? && b.Some? {
      var x: seq<byte>, y: seq<byte> := [1] + Utf8(a.value), [1] + Utf8(b.value);
      assert x[1..] == Utf8(a.value) && y[1..] == Utf8(b.value);
      TextOrder(a.value, b.value);
    }
  }
}
