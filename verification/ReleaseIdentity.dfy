/** Image ids in text, and the release identity's operations as they run: loops and a sort in place. */
module ReleaseIdentity {
  import opened Text
  import opened Sorting
  import opened Release

  // ---------------------------------------------------------------- image ids

  const HEX: string := "0123456789abcdef"

  /** A digest in lower-case hexadecimal. */
  function HexText(b: seq<byte>): (r: string)
    ensures |r| == 2 * |b|
  {
    if b == [] then [] else [HEX[b[0] / 16], HEX[b[0] % 16]] + HexText(b[1..])
  }

  lemma HexDigit(n: int)
    requires 0 <= n < 16
    ensures IsHex(HEX[n]) && HexValue(HEX[n]) == n && HEX[n] != 's'
  {}

  lemma {:induction false} HexBytesStep(s: string)
    requires |s| >= 2 && |s| % 2 == 0 && AllHex(s)
    ensures AllHex(s[2..]) && s[0] in s && s[1] in s
    ensures HexBytes(s) == [16 * HexValue(s[0]) + HexValue(s[1])] + HexBytes(s[2..])
  {}

  lemma HexBytesNone()
    ensures HexBytes([]) == []
  {}

  lemma {:induction false} HexBytesPair(a: char, b: char, rest: string)
    requires IsHex(a) && IsHex(b) && AllHex(rest) && |rest| % 2 == 0
    ensures AllHex([a, b] + rest) && HexBytes([a, b] + rest) == [16 * HexValue(a) + HexValue(b)] + HexBytes(rest)
  {
    hide HexBytes;
    hide IsHex;
    hide HexValue;
    var s := [a, b] + rest;
    assert forall c :: c in s ==> c == a || c == b || c in rest;
    assert s[2..] == rest;
    HexBytesStep(s);
  }

  lemma {:induction false} HexRoundTrip(b: seq<byte>)
    ensures AllHex(HexText(b)) && HexBytes(HexText(b)) == b && 's' !in HexText(b)
  {
    hide HexBytes;
    hide IsHex;
    hide HexValue;
    if b == [] {
      HexBytesNone();
    } else {
      var rest := HexText(b[1..]);
      HexDigit(b[0] / 16);
      HexDigit(b[0] % 16);
      HexRoundTrip(b[1..]);
      HexBytesPair(HEX[b[0] / 16], HEX[b[0] % 16], rest);
      assert b == [b[0]] + b[1..];
    }
  }

  /** Nothing after a mark that is free of its first letter can hold another mark. */
  lemma OneMark(prefix: string, tail: string, i: nat)
    requires 's' !in tail && i > |prefix|
    ensures !MarkAt(prefix + MARK + tail, i)
  {
    var value := prefix + MARK + tail;
    if i + |MARK| <= |value| {
      assert value[i] != 's' by {
        if i < |prefix| + |MARK| {
          assert value[i] == MARK[i - |prefix|];
        } else {
          assert value[i] == tail[i - |prefix| - |MARK|];
        }
      }
      assert value[i..i + |MARK|][0] == value[i];
    }
  }

  /** Every digest can be read back from an image id, whatever stands before the mark. */
  lemma {:induction false} ImageIdRoundTrip(prefix: string, digest: Digest)
    ensures ParseImageId(prefix + MARK + HexText(digest)) == Ok(digest)
  {
    hide HexText;
    hide HexBytes;
    var tail := HexText(digest);
    var value := prefix + MARK + tail;
    HexRoundTrip(digest);
    assert value[|prefix|..|prefix| + |MARK|] == MARK;
    assert MarkAt(value, |prefix|);
    forall i: nat | i > |prefix| ensures !MarkAt(value, i) {
      OneMark(prefix, tail, i);
    }
    assert LastMark(value, |value|) == Some(|prefix|);
    assert value[|prefix| + |MARK|..] == tail;
  }

  lemma {:induction false} HexBytesMore(s: string, k: nat)
    requires AllHex(s) && |s| % 2 == 0 && 2 * k + 2 <= |s|
    ensures AllHex(s[..2 * k]) && AllHex(s[..2 * k + 2]) && s[2 * k] in s && s[2 * k + 1] in s
    ensures HexBytes(s[..2 * k + 2]) == HexBytes(s[..2 * k]) + [16 * HexValue(s[2 * k]) + HexValue(s[2 * k + 1])]
    decreases k
  {
    hide HexBytes;
    hide IsHex;
    hide HexValue;
    AllHexPart(s, 0, 2 * k);
    AllHexPart(s, 0, 2 * k + 2);
    var t := s[..2 * k + 2];
    HexBytesStep(t);
    if k == 0 {
      assert t[2..] == [] && s[..0] == [];
      HexBytesNone();
    } else {
      AllHexPart(s, 2, |s|);
      HexBytesMore(s[2..], k - 1);
      assert t[2..] == s[2..][..2 * (k - 1) + 2];
      assert s[..2 * k][2..] == s[2..][..2 * (k - 1)];
      assert s[2..][2 * (k - 1)] == s[2 * k] && s[2..][2 * (k - 1) + 1] == s[2 * k + 1];
      HexBytesStep(s[..2 * k]);
    }
  }

  lemma AllHexPart(s: string, i: nat, j: nat)
    requires AllHex(s) && i <= j <= |s|
    ensures AllHex(s[i..j])
  {}

  /** `parse_image_id`. */
  method ParseId(value: string) returns (r: Outcome<Digest>)
    ensures r == ParseImageId(value)
  {
    hide HexBytes;
    var mark := LastMark(value, |value|);
    if mark.None? {
      return Err(InvalidImageId);
    }
    var encoded := value[mark.value + |MARK|..];
    if |encoded| != 64 || !AllHex(encoded) {
      return Err(InvalidImageId);
    }
    var digest: seq<byte> := [];
    assert encoded[..0] == [] && HexBytes([]) == [];
    for index := 0 to 32
      invariant AllHex(encoded[..2 * index]) && digest == HexBytes(encoded[..2 * index])
    {
      HexBytesMore(encoded, index);
      digest := digest + [16 * HexValue(encoded[2 * index]) + HexValue(encoded[2 * index + 1])];
      assert 2 * (index + 1) == 2 * index + 2;
    }
    assert encoded[..64] == encoded;
    return Ok(digest);
  }

  // ---------------------------------------------------------------- components

  /** `validate_components`: sorts in place once the values pass the checks that come before. */
  method ValidateComponents(values: array<Component>) returns (failed: Option<ReleaseError>)
    modifies values
    ensures var arranged := Arrange(old(values[..]));
            if arranged.Err? then failed == Some(arranged.error) else failed == None && values[..] == arranged.value
  {
    hide Leq;
    hide BadName;
    hide BadImage;
    if values.Length == 0 || values.Length > MAX_RELEASE_CONTAINERS {
      return Some(InvalidContainerCount);
    }
    if exists c :: c in values[..] && BadName(c) {
      return Some(InvalidContainerName);
    }
    if exists c :: c in values[..] && BadImage(c) {
      return Some(InvalidImageReference);
    }
    var sorted := Sort(values[..], Leq);
    SortElements(values[..], Leq);
    forall i | 0 <= i < values.Length {
      values[i] := sorted[i];
    }
    assert values[..] == sorted;
    if exists i :: 0 <= i < values.Length - 1 && SameName(values[i], values[i + 1]) {
      return Some(DuplicateContainer);
    }
    failed := None;
  }

  /** `digest_components`. */
  method DigestComponents(values: seq<Component>, hash: seq<byte> -> Digest) returns (digest: Digest)
    ensures digest == hash(Preimage(values))
  {
    hide ComponentBytes;
    var fed := BigEndian(RELEASE_IDENTITY_VERSION, 2);
    for i := 0 to |values|
      invariant fed == Preimage(values[..i])
    {
      assert values[..i + 1][..i] == values[..i];
      fed := fed + ComponentBytes(values[i]);
    }
    assert values[..|values|] == values;
    digest := hash(fed);
  }

  /** `from_images`. */
  method BuildRelease(reports: seq<Reported>, hash: seq<byte> -> Digest) returns (r: Outcome<Release>)
    ensures r == FromImages(reports, hash)
  {
    hide ParseImageId;
    hide Arrange;
    hide Preimage;
    var containers: seq<Component> := [];
    for i := 0 to |reports|
      invariant Resolve(reports[..i]) == Ok(containers)
    {
      assert reports[..i + 1][..i] == reports[..i];
      var digest := ParseId(reports[i].imageId);
      if digest.Err? {
        Unresolved(reports, i + 1);
        return Err(digest.error);
      }
      containers := containers + [Component(reports[i].category, reports[i].name, reports[i].image, digest.value)];
    }
    assert reports[..|reports|] == reports;
    hide Resolve;
    var values := new Component[|containers|](i requires 0 <= i < |containers| => containers[i]);
    assert values[..] == containers;
    var failed := ValidateComponents(values);
    if failed.Some? {
      return Err(failed.value);
    }
    var digest := DigestComponents(values[..], hash);
    r := Ok(Release(RELEASE_IDENTITY_VERSION, digest, values[..]));
  }

  /** The first image id that does not parse decides. */
  lemma {:induction false} Unresolved(reports: seq<Reported>, i: nat)
    requires i <= |reports| && Resolve(reports[..i]).Err?
    ensures Resolve(reports) == Resolve(reports[..i])
    decreases |reports| - i
  {
    hide ParseImageId;
    if i == |reports| {
      assert reports[..i] == reports;
    } else {
      assert reports[..i + 1][..i] == reports[..i];
      Unresolved(reports, i + 1);
    }
  }

  /** `validate`. */
  method Check(r: Release, hash: seq<byte> -> Digest) returns (failed: Option<ReleaseError>)
    ensures failed == Validate(r, hash)
  {
    hide Arrange;
    hide Preimage;
    if r.version != RELEASE_IDENTITY_VERSION {
      return Some(UnsupportedVersion);
    }
    var components := new Component[|r.containers|](i requires 0 <= i < |r.containers| => r.containers[i]);
    assert components[..] == r.containers;
    failed := ValidateComponents(components);
    if failed.Some? {
      return;
    }
    var digest := DigestComponents(components[..], hash);
    if components[..] != r.containers || digest != r.digest {
      failed := Some(DigestMismatch);
    }
  }
}
