/** Release identities: construction from images in any order, validation, and the bytes their digest covers. */
module Release {
  import opened Text
  import opened Sorting

  const MAX_RELEASE_CONTAINERS: nat := 64
  const MAX_CONTAINER_NAME_BYTES: nat := 253
  const MAX_IMAGE_REFERENCE_BYTES: nat := 512
  const RELEASE_IDENTITY_VERSION: nat := 1

  type Digest = b: seq<byte> | |b| == 32 witness ZEROS

  const ZEROS: seq<byte> := [0, 0, 0, 0, 0, 0, 0, 0, 0, 0, 0, 0, 0, 0, 0, 0, 0, 0, 0, 0, 0, 0, 0, 0, 0, 0, 0, 0, 0, 0, 0, 0]

  datatype Category = Init | Application

  datatype Component = Component(category: Category, name: string, image: Option<string>, digest: Digest)

  /** A container as it is reported: its digest is still part of the image id. */
  datatype Reported = Reported(category: Category, name: string, image: Option<string>, imageId: string)

  datatype Release = Release(version: nat, digest: Digest, containers: seq<Component>)

  datatype ReleaseError =
    | InvalidContainerCount | InvalidContainerName | InvalidImageReference
    | DuplicateContainer | InvalidImageId | UnsupportedVersion | DigestMismatch

  datatype Outcome<+T> = Ok(value: T) | Err(error: ReleaseError)

  // ---------------------------------------------------------------- image ids

  const MARK: string := "sha256:"

  predicate MarkAt(value: string, i: nat) { i + |MARK| <= |value| && value[i..i + |MARK|] == MARK }

  /** The last place, up to `n`, where the mark stands. */
  function LastMark(value: string, n: nat): (r: Option<nat>)
    ensures r.Some? ==> MarkAt(value, r.value) && r.value <= n && forall i :: r.value < i <= n ==> !MarkAt(value, i)
    ensures r.None? ==> forall i :: 0 <= i <= n ==> !MarkAt(value, i)
  {
    if MarkAt(value, n) then Some(n) else if n == 0 then None else LastMark(value, n - 1)
  }

  predicate IsHex(c: char) { '0' <= c <= '9' || 'a' <= c <= 'f' || 'A' <= c <= 'F' }

  function HexValue(c: char): (r: int)
    requires IsHex(c)
    ensures 0 <= r < 16
  {
    if c <= '9' then c as int - '0' as int else if c <= 'F' then c as int - 'A' as int + 10 else c as int - 'a' as int + 10
  }

  predicate AllHex(s: string) { forall c :: c in s ==> IsHex(c) }

  function HexBytes(s: string): (r: seq<byte>)
    requires |s| % 2 == 0 && AllHex(s)
    ensures |r| == |s| / 2
  {
    if s == [] then []
    else
      assert s[0] in s && s[1] in s;
      [16 * HexValue(s[0]) + HexValue(s[1])] + HexBytes(s[2..])
  }

  function ParseImageId(value: string): Outcome<Digest> {
    var mark := LastMark(value, |value|);
    if mark.None? then Err(InvalidImageId)
    else
      var encoded := value[mark.value + |MARK|..];
      if |encoded| != 64 || !AllHex(encoded) then Err(InvalidImageId) else Ok(HexBytes(encoded))
  }

  // ---------------------------------------------------------------- order

  /** Byte strings in the order of the derived comparison: category, name, image, digest. */
  function Keys(c: Component): seq<seq<byte>> {
    [[if c.category.Init? then 0 else 1], Utf8(c.name), if c.image.None? then [] else [1] + Utf8(c.image.value), c.digest]
  }

  predicate ListLeq(a: seq<seq<byte>>, b: seq<seq<byte>>) {
    a == [] || (b != [] && (if a[0] == b[0] then ListLeq(a[1..], b[1..]) else LexLeq(a[0], b[0])))
  }

  predicate Leq(a: Component, b: Component) { ListLeq(Keys(a), Keys(b)) }

  // ---------------------------------------------------------------- components

  predicate BadName(c: Component) { c.name == [] || |Utf8(c.name)| > MAX_CONTAINER_NAME_BYTES }

  predicate BadImage(c: Component) {
    c.image.Some? &&
    var image := c.image.value;
    image == [] || |Utf8(image)| > MAX_IMAGE_REFERENCE_BYTES || IsWhitespace(image[0]) || IsWhitespace(image[|image| - 1])
  }

  predicate SameName(a: Component, b: Component) { a.category == b.category && a.name == b.name }

  predicate Neighbours(s: seq<Component>) { exists i :: 0 <= i < |s| - 1 && SameName(s[i], s[i + 1]) }

  /** The error found before sorting, if any. */
  function FirstError(values: seq<Component>): Option<ReleaseError> {
    if values == [] || |values| > MAX_RELEASE_CONTAINERS then Some(InvalidContainerCount)
    else if exists c :: c in values && BadName(c) then Some(InvalidContainerName)
    else if exists c :: c in values && BadImage(c) then Some(InvalidImageReference)
    else None
  }

  /** `validate_components`: the components in order. */
  function Arrange(values: seq<Component>): Outcome<seq<Component>> {
    var first := FirstError(values);
    if first.Some? then Err(first.value)
    else
      var sorted := Sort(values, Leq);
      if Neighbours(sorted) then Err(DuplicateContainer) else Ok(sorted)
  }

  function ComponentBytes(c: Component): seq<byte> {
    [if c.category.Init? then 0 else 1] + BigEndian(|Utf8(c.name)|, 8) + Utf8(c.name) + c.digest
  }

  /** What the release digest covers. */
  function Preimage(values: seq<Component>): seq<byte> {
    if values == [] then BigEndian(RELEASE_IDENTITY_VERSION, 2)
    else Preimage(values[..|values| - 1]) + ComponentBytes(values[|values| - 1])
  }

  function Build(values: seq<Component>, hash: seq<byte> -> Digest): Outcome<Release> {
    var arranged := Arrange(values);
    if arranged.Err? then Err(arranged.error)
    else Ok(Release(RELEASE_IDENTITY_VERSION, hash(Preimage(arranged.value)), arranged.value))
  }

  function Resolve(reports: seq<Reported>): Outcome<seq<Component>> {
    if reports == [] then Ok([])
    else
      var last := reports[|reports| - 1];
      var before, digest := Resolve(reports[..|reports| - 1]), ParseImageId(last.imageId);
      if before.Err? then Err(before.error)
      else if digest.Err? then Err(digest.error)
      else Ok(before.value + [Component(last.category, last.name, last.image, digest.value)])
  }

  /** `from_images`, and `from_image_ids` when no image is given. */
  function FromImages(reports: seq<Reported>, hash: seq<byte> -> Digest): Outcome<Release> {
    var components := Resolve(reports);
    if components.Err? then Err(components.error) else Build(components.value, hash)
  }

  /** `validate`; nothing means that the release is valid. */
  function Validate(r: Release, hash: seq<byte> -> Digest): Option<ReleaseError> {
    if r.version != RELEASE_IDENTITY_VERSION then Some(UnsupportedVersion)
    else
      var arranged := Arrange(r.containers);
      if arranged.Err? then Some(arranged.error)
      else if arranged.value != r.containers || hash(Preimage(arranged.value)) != r.digest then Some(DigestMismatch)
      else None
  }
}
