/** A release identity does not depend on the order of its containers, and its digest covers all but the image text. */
module ReleaseOrder {
  import opened Text
  import opened Sorting
  import opened Release

  // ---------------------------------------------------------------- the order is total

  lemma {:induction false} ListTotal(a: seq<seq<byte>>, b: seq<seq<byte>>)
    ensures ListLeq(a, b) || ListLeq(b, a)
    ensures ListLeq(a, b) && ListLeq(b, a) ==> a == b
    decreases |a|
  {
    if a != [] && b != [] {
      LexTotal(a[0], b[0]);
      ListTotal(a[1..], b[1..]);
      assert a == [a[0]] + a[1..] && b == [b[0]] + b[1..];
    }
  }

  lemma {:induction false} ListTransitive(a: seq<seq<byte>>, b: seq<seq<byte>>, c: seq<seq<byte>>)
    requires ListLeq(a, b) && ListLeq(b, c)
    ensures ListLeq(a, c)
    decreases |a|
  {
    if a != [] {
      if a[0] == b[0] && b[0] == c[0] {
        ListTransitive(a[1..], b[1..], c[1..]);
      } else if a[0] != b[0] && b[0] != c[0] {
        LexTransitive(a[0], b[0], c[0]);
        LexTotal(a[0], b[0]);
      }
    }
  }

  lemma KeysInjective(a: Component, b: Component)
    requires Keys(a) == Keys(b)
    ensures a == b
  {
    var x, y := Keys(a), Keys(b);
    assert x[0] == y[0] && x[1] == y[1] && x[2] == y[2] && x[3] == y[3];
    assert x[0][0] == y[0][0];
    Utf8Injective(a.name, b.name);
    if a.image.Some? && b.image.Some? {
      assert Utf8(a.image.value) == x[2][1..] == y[2][1..] == Utf8(b.image.value);
      Utf8Injective(a.image.value, b.image.value);
    }
  }

  lemma LeqIsTotal()
    ensures TotalOrder(Leq)
  {
    hide Keys;
    hide ListLeq;
    forall a, b ensures Leq(a, b) || Leq(b, a) {
      ListTotal(Keys(a), Keys(b));
    }
    forall a, b, c | Leq(a, b) && Leq(b, c) ensures Leq(a, c) {
      ListTransitive(Keys(a), Keys(b), Keys(c));
    }
    forall a, b | Leq(a, b) && Leq(b, a) ensures a == b {
      ListTotal(Keys(a), Keys(b));
      KeysInjective(a, b);
    }
  }

  // ---------------------------------------------------------------- duplicates

  /** Between two components of one name there are only components of that name. */
  lemma Between(a: Component, b: Component, c: Component)
    requires Leq(a, b) && Leq(b, c) && SameName(a, c)
    ensures SameName(a, b)
  {
    hide Utf8;
    hide LexLeq;
    var x, y, z := Keys(a), Keys(b), Keys(c);
    assert x[0] == z[0] && x[1] == z[1];
    LexTotal(x[0], y[0]);
    assert y[0] == x[0];
    assert y[0][0] == x[0][0];
    assert ListLeq(x[1..], y[1..]) && ListLeq(y[1..], z[1..]);
    LexTotal(x[1], y[1]);
    assert y[1] == x[1];
    Utf8Injective(a.name, b.name);
  }

  /** Some two components share category and name. */
  ghost predicate Duplicated(s: seq<Component>) { exists i, j :: 0 <= i < j < |s| && SameName(s[i], s[j]) }

  /** After sorting, comparing neighbours finds every duplicate. */
  lemma NeighboursSuffice(s: seq<Component>)
    requires Sorted(s, Leq)
    ensures Neighbours(s) <==> Duplicated(s)
  {
    hide Leq;
    hide SameName;
    if Duplicated(s) {
      var i, j :| 0 <= i < j < |s| && SameName(s[i], s[j]);
      if i + 1 < j {
        assert Leq(s[i], s[i + 1]) && Leq(s[i + 1], s[j]);
        Between(s[i], s[i + 1], s[j]);
      }
      assert SameName(s[i], s[i + 1]);
    }
    if Neighbours(s) {
      var i :| 0 <= i < |s| - 1 && SameName(s[i], s[i + 1]);
      var j := i + 1;
      assert SameName(s[i], s[j]);
    }
  }

  /** Duplicates do not depend on the order: they are values of which more than one is there. */
  lemma {:induction false} DuplicatedElements(s: seq<Component>, t: seq<Component>)
    requires multiset(s) == multiset(t) && Duplicated(s)
    ensures Duplicated(t)
  {
    var i, j :| 0 <= i < j < |s| && SameName(s[i], s[j]);
    if s[i] != s[j] {
      assert s[i] in multiset(t) && s[j] in multiset(t);
      var k :| 0 <= k < |t| && t[k] == s[i];
      var l :| 0 <= l < |t| && t[l] == s[j];
      assert if k < l then SameName(t[k], t[l]) else SameName(t[l], t[k]);
    } else {
      assert !Distinct(s);
      DistinctPermutation(s, t);
      var k, l :| 0 <= k < l < |t| && t[k] == t[l];
      assert SameName(t[k], t[l]);
    }
  }

  lemma SameElements<T>(s: seq<T>, t: seq<T>)
    requires multiset(s) == multiset(t)
    ensures |s| == |t| && forall x :: x in s <==> x in t
  {
    assert |s| == |multiset(s)| == |multiset(t)| == |t|;
    assert forall x :: x in s <==> x in multiset(s);
    assert forall x :: x in t <==> x in multiset(t);
  }

  /** The reasons for which components are refused, and what they are arranged into otherwise. */
  lemma ArrangeExact(values: seq<Component>)
    ensures Arrange(values) == Err(DuplicateContainer) <==> FirstError(values).None? && Duplicated(values)
    ensures Arrange(values).Ok? <==> FirstError(values).None? && !Duplicated(values)
    ensures Arrange(values).Ok? ==> Sorted(Arrange(values).value, Leq) && multiset(Arrange(values).value) == multiset(values)
  {
    hide Leq;
    hide Duplicated;
    hide Neighbours;
    var sorted := Sort(values, Leq);
    LeqIsTotal();
    SortSorted(values, Leq);
    SortElements(values, Leq);
    NeighboursSuffice(sorted);
    if Duplicated(values) {
      DuplicatedElements(values, sorted);
    }
    if Duplicated(sorted) {
      DuplicatedElements(sorted, values);
    }
  }

  lemma ArrangePermutation(s: seq<Component>, t: seq<Component>)
    requires multiset(s) == multiset(t)
    ensures Arrange(s) == Arrange(t)
  {
    hide Leq;
    hide BadName;
    hide BadImage;
    LeqIsTotal();
    SameElements(s, t);
    SortCanonical(s, t, Leq);
  }

  // ---------------------------------------------------------------- reports in any order

  ghost predicate AllParse(reports: seq<Reported>) { forall r :: r in reports ==> ParseImageId(r.imageId).Ok? }

  function ComponentOf(r: Reported): Component
    requires ParseImageId(r.imageId).Ok?
  {
    Component(r.category, r.name, r.image, ParseImageId(r.imageId).value)
  }

  lemma {:induction false} ResolveIs(reports: seq<Reported>)
    ensures Resolve(reports).Ok? <==> AllParse(reports)
    ensures Resolve(reports).Err? ==> Resolve(reports).error == InvalidImageId
    ensures Resolve(reports).Ok? ==>
              |Resolve(reports).value| == |reports| &&
              forall i :: 0 <= i < |reports| ==> ParseImageId(reports[i].imageId).Ok? && Resolve(reports).value[i] == ComponentOf(reports[i])
  {
    hide ParseImageId;
    ParseError(if reports == [] then "" else reports[|reports| - 1].imageId);
    if reports != [] {
      var front := reports[..|reports| - 1];
      ResolveIs(front);
      assert reports == front + [reports[|reports| - 1]];
    }
  }

  lemma ParseError(value: string)
    ensures ParseImageId(value).Err? ==> ParseImageId(value).error == InvalidImageId
  {}

  /** Swapping out one report for its component leaves the same elements whatever the order. */
  lemma {:induction false} ResolveElements(s: seq<Reported>, t: seq<Reported>)
    requires multiset(s) == multiset(t) && Resolve(s).Ok? && Resolve(t).Ok?
    ensures multiset(Resolve(s).value) == multiset(Resolve(t).value)
    decreases |s|
  {
    SameElements(s, t);
    ResolveIs(s);
    ResolveIs(t);
    if s != [] {
      var last := s[|s| - 1];
      assert last in t;
      var k :| 0 <= k < |t| && t[k] == last;
      var fewer := t[..k] + t[k + 1..];
      WithoutOne(s, |s| - 1);
      WithoutOne(t, k);
      assert s[..|s| - 1] + s[|s|..] == s[..|s| - 1];
      ResolveIs(fewer);
      ResolveIs(s[..|s| - 1]);
      ResolveElements(s[..|s| - 1], fewer);
      ResolveWithout(t, k);
    }
  }

  lemma WithoutOne<T>(s: seq<T>, k: nat)
    requires k < |s|
    ensures multiset(s[..k] + s[k + 1..]) == multiset(s) - multiset{s[k]}
    ensures forall x :: x in s[..k] + s[k + 1..] ==> x in s
  {
    assert s == s[..k] + [s[k]] + s[k + 1..];
  }

  lemma {:induction false} ResolveWithout(t: seq<Reported>, k: nat)
    requires k < |t| && Resolve(t).Ok? && Resolve(t[..k] + t[k + 1..]).Ok?
    ensures ParseImageId(t[k].imageId).Ok?
    ensures multiset(Resolve(t).value) == multiset(Resolve(t[..k] + t[k + 1..]).value) + multiset{ComponentOf(t[k])}
  {
    hide Resolve;
    hide ParseImageId;
    var fewer := t[..k] + t[k + 1..];
    ResolveIs(t);
    ResolveIs(fewer);
    var all, some := Resolve(t).value, Resolve(fewer).value;
    assert some == all[..k] + all[k + 1..];
    assert all == all[..k] + [all[k]] + all[k + 1..];
  }

  /** Order independence: every permutation of the reports gives the same release or the same error. */
  lemma FromImagesPermutation(s: seq<Reported>, t: seq<Reported>, hash: seq<byte> -> Digest)
    requires multiset(s) == multiset(t)
    ensures FromImages(s, hash) == FromImages(t, hash)
  {
    hide Resolve;
    hide Arrange;
    hide Preimage;
    hide ParseImageId;
    SameElements(s, t);
    ResolveIs(s);
    ResolveIs(t);
    if Resolve(s).Ok? {
      ResolveElements(s, t);
      ArrangePermutation(Resolve(s).value, Resolve(t).value);
    }
  }

  // ---------------------------------------------------------------- validation

  /** Arranging what has been arranged changes nothing. */
  lemma ArrangeStable(values: seq<Component>)
    requires Arrange(values).Ok?
    ensures Arrange(Arrange(values).value) == Arrange(values)
  {
    hide Arrange;
    ArrangeExact(values);
    ArrangePermutation(Arrange(values).value, values);
  }

  /** What is constructed passes validation. */
  lemma FromImagesValid(reports: seq<Reported>, hash: seq<byte> -> Digest)
    requires FromImages(reports, hash).Ok?
    ensures Validate(FromImages(reports, hash).value, hash) == None
  {
    hide Arrange;
    hide Resolve;
    hide Preimage;
    ArrangeStable(Resolve(reports).value);
  }

  /** A release is valid exactly when it is what its own containers build. */
  lemma ValidateExact(r: Release, hash: seq<byte> -> Digest)
    ensures Validate(r, hash) == None <==> Build(r.containers, hash) == Ok(r)
  {
    hide Arrange;
    hide Preimage;
  }

  /** So a valid release lists its containers in order, without duplicates, and is the only one with those containers. */
  lemma ValidMeaning(r: Release, hash: seq<byte> -> Digest)
    requires Validate(r, hash) == None
    ensures Sorted(r.containers, Leq) && !Duplicated(r.containers) && FirstError(r.containers) == None
    ensures r.digest == hash(Preimage(r.containers))
  {
    hide Arrange;
    hide Preimage;
    hide Leq;
    ArrangeExact(r.containers);
  }

  // ---------------------------------------------------------------- the digest's input

  /** A component without its image text. */
  function Erased(c: Component): Component { c.(image := None) }

  function ErasedAll(values: seq<Component>): (r: seq<Component>)
    ensures |r| == |values| && forall i :: 0 <= i < |values| ==> r[i] == Erased(values[i])
  {
    seq(|values|, i requires 0 <= i < |values| => Erased(values[i]))
  }

  predicate Named(values: seq<Component>) { forall c :: c in values ==> |Utf8(c.name)| <= MAX_CONTAINER_NAME_BYTES }

  lemma {:induction false} PreimageLast(values: seq<Component>, c: Component)
    ensures Preimage([]) == BigEndian(1, 2) && Preimage(values + [c]) == Preimage(values) + ComponentBytes(c)
  {
    hide ComponentBytes;
    hide BigEndian;
    var all := values + [c];
    assert all[..|all| - 1] == values && all[|all| - 1] == c;
  }

  lemma {:induction false} PreimageFront(c: Component, rest: seq<Component>)
    ensures Preimage([c] + rest)[..2] == BigEndian(1, 2) && |Preimage(rest)| >= 2
    ensures Preimage([c] + rest) == BigEndian(1, 2) + (ComponentBytes(c) + Preimage(rest)[2..])
    ensures Preimage(rest)[..2] == BigEndian(1, 2)
  {
    hide ComponentBytes;
    hide BigEndian;
    hide Preimage;
    if rest == [] {
      PreimageLast([], c);
      assert [] + [c] == [c] + rest;
    } else {
      var front, last := rest[..|rest| - 1], rest[|rest| - 1];
      PreimageFront(c, front);
      PreimageLast([c] + front, last);
      PreimageLast(front, last);
      assert front + [last] == rest && [c] + front + [last] == [c] + rest;
      assert Preimage(rest)[2..] == Preimage(front)[2..] + ComponentBytes(last);
    }
  }

  lemma Cut(a: seq<byte>, x: seq<byte>, b: seq<byte>, y: seq<byte>)
    requires |a| == |b| && a + x == b + y
    ensures a == b && x == y
  {
    assert a == (a + x)[..|a|] == (b + y)[..|b|] == b;
    assert x == (a + x)[|a|..] == (b + y)[|b|..] == y;
  }

  lemma FirstComponent(c: Component, x: seq<byte>, d: Component, y: seq<byte>)
    requires |Utf8(c.name)| <= MAX_CONTAINER_NAME_BYTES && |Utf8(d.name)| <= MAX_CONTAINER_NAME_BYTES
    requires ComponentBytes(c) + x == ComponentBytes(d) + y
    ensures Erased(c) == Erased(d) && x == y
  {
    hide BigEndian;
    hide Utf8;
    var i, j: seq<byte> := [if c.category.Init? then 0 else 1], [if d.category.Init? then 0 else 1];
    var m, n := BigEndian(|Utf8(c.name)|, 8), BigEndian(|Utf8(d.name)|, 8);
    assert ComponentBytes(c) + x == (i + m) + (Utf8(c.name) + (c.digest + x));
    assert ComponentBytes(d) + y == (j + n) + (Utf8(d.name) + (d.digest + y));
    Cut(i + m, Utf8(c.name) + (c.digest + x), j + n, Utf8(d.name) + (d.digest + y));
    Cut(i, m, j, n);
    assert i[0] == j[0];
    Pow256Values();
    BigEndianInjective(|Utf8(c.name)|, |Utf8(d.name)|, 8);
    Cut(Utf8(c.name), c.digest + x, Utf8(d.name), d.digest + y);
    Utf8Injective(c.name, d.name);
    Cut(c.digest, x, d.digest, y);
  }

  /** The digest covers everything but the image text: equal inputs mean equal components up to that text, and back. */
  lemma {:induction false} PreimageExact(s: seq<Component>, t: seq<Component>)
    requires Named(s) && Named(t)
    ensures Preimage(s) == Preimage(t) <==> ErasedAll(s) == ErasedAll(t)
  {
    hide ComponentBytes;
    if Preimage(s) == Preimage(t) {
      PreimageDetermines(s, t);
    }
    if ErasedAll(s) == ErasedAll(t) {
      SamePreimage(s, t);
    }
  }

  lemma {:induction false} SamePreimage(s: seq<Component>, t: seq<Component>)
    requires ErasedAll(s) == ErasedAll(t)
    ensures Preimage(s) == Preimage(t)
  {
    assert |ErasedAll(s)| == |s| && |ErasedAll(t)| == |t|;
    if s != [] {
      var n := |s| - 1;
      assert Erased(s[n]) == ErasedAll(s)[n] == ErasedAll(t)[n] == Erased(t[n]);
      assert ErasedAll(s[..n]) == ErasedAll(s)[..n] == ErasedAll(t)[..n] == ErasedAll(t[..n]);
      SamePreimage(s[..n], t[..n]);
    }
  }

  lemma {:induction false} PreimageLonger(s: seq<Component>)
    ensures s != [] ==> |Preimage(s)| > 2
  {
    if s != [] {
      assert s == [s[0]] + s[1..];
      PreimageFront(s[0], s[1..]);
    }
  }

  lemma {:induction false} PreimageDetermines(s: seq<Component>, t: seq<Component>)
    requires Named(s) && Named(t) && Preimage(s) == Preimage(t)
    ensures ErasedAll(s) == ErasedAll(t)
    decreases |s|
  {
    PreimageLonger(s);
    PreimageLonger(t);
    if s != [] {
      hide ComponentBytes;
      hide BigEndian;
      hide Utf8;
      hide Preimage;
      hide Erased;
      PreimageParts(s);
      PreimageParts(t);
      var a, b := s[1..], t[1..];
      Cut(BigEndian(1, 2), ComponentBytes(s[0]) + Preimage(a)[2..], BigEndian(1, 2), ComponentBytes(t[0]) + Preimage(b)[2..]);
      assert s[0] in s && t[0] in t;
      FirstComponent(s[0], Preimage(a)[2..], t[0], Preimage(b)[2..]);
      PreimageDetermines(a, b);
      ErasedFront(s);
      ErasedFront(t);
    }
  }

  lemma {:induction false} PreimageParts(s: seq<Component>)
    requires s != []
    ensures |Preimage(s[1..])| >= 2 && Preimage(s[1..]) == BigEndian(1, 2) + Preimage(s[1..])[2..]
    ensures Preimage(s) == BigEndian(1, 2) + (ComponentBytes(s[0]) + Preimage(s[1..])[2..])
  {
    hide BigEndian;
    hide ComponentBytes;
    PreimageFront(s[0], s[1..]);
    assert s == [s[0]] + s[1..];
    assert Preimage(s[1..]) == Preimage(s[1..])[..2] + Preimage(s[1..])[2..];
  }

  lemma ErasedFront(s: seq<Component>)
    requires s != []
    ensures ErasedAll(s) == [Erased(s[0])] + ErasedAll(s[1..])
  {}
}
