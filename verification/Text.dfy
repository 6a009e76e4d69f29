/** Bytes, UTF-8, identifiers, big-endian integers, separators and byte order, as the Rust standard library defines them. */
module Text {

  type byte = x: int | 0 <= x < 256

  const U64_MAX: nat := 0xFFFF_FFFF_FFFF_FFFF

  /** In nanoseconds. */
  const SECOND: nat := 1_000_000_000

  type Uuid = b: seq<byte> | |b| == 16 witness [0, 0, 0, 0, 0, 0, 0, 0, 0, 0, 0, 0, 0, 0, 0, 0]

  datatype Option<+T> = None | Some(value: T)

  function Min(a: nat, b: nat): nat { if a <= b then a else b }

  function Max(a: nat, b: nat): nat { if a >= b then a else b }

  /** The byte at an index, zero past the end. */
  function At(b: seq<byte>, i: nat): byte { if i < |b| then b[i] else 0 }

  // ---------------------------------------------------------------- UTF-8

  /** The UTF-8 form of one Unicode scalar value. */
  function EncodeChar(c: char): (r: seq<byte>)
    ensures 1 <= |r| <= 4
  {
    var n := c as int;
    if n < 0x80 then [n]
    else if n < 0x800 then [0xC0 + n / 64, 0x80 + n % 64]
    else if n < 0x1_0000 then [0xE0 + n / 4096, 0x80 + n / 64 % 64, 0x80 + n % 64]
    else [0xF0 + n / 262144, 0x80 + n / 4096 % 64, 0x80 + n / 64 % 64, 0x80 + n % 64]
  }

  /** The bytes of a string (`as_bytes`); its length is `str::len`. */
  function Utf8(s: string): seq<byte> {
    if s == [] then [] else EncodeChar(s[0]) + Utf8(s[1..])
  }

  /** The encoded length follows from the first byte, and the value from all of them. */
  lemma EncodeCharPrefixFree(a: char, x: seq<byte>, b: char, y: seq<byte>)
    requires EncodeChar(a) + x == EncodeChar(b) + y
    ensures a == b && x == y
  {
    var p, q := EncodeChar(a), EncodeChar(b);
    assert p[0] == (p + x)[0] == (q + y)[0] == q[0];
    assert |p| == |q|;
    assert p == (p + x)[..|p|] == (q + y)[..|q|] == q;
    assert x == (p + x)[|p|..] == (q + y)[|q|..] == y;
    SameChar(a, b);
  }

  lemma SameChar(a: char, b: char)
    requires EncodeChar(a) == EncodeChar(b)
    ensures a == b
  {
    var p, q := EncodeChar(a), EncodeChar(b);
    var n, m := a as int, b as int;
    assert |p| == |q| && p[0] == q[0] && p[|p| - 1] == q[|p| - 1];
    if |p| == 2 {
      assert n / 64 == m / 64 && n % 64 == m % 64;
    } else if |p| == 3 {
      assert p[1] == q[1];
      ThreeDigits(n);
      ThreeDigits(m);
    } else if |p| == 4 {
      assert p[1] == q[1] && p[2] == q[2];
      FourDigits(n);
      FourDigits(m);
    }
  }

  lemma ThreeDigits(n: nat)
    ensures n == 4096 * (n / 4096) + 64 * (n / 64 % 64) + n % 64
  {
    assert n / 64 / 64 == n / 4096;
  }

  lemma FourDigits(n: nat)
    ensures n == 262144 * (n / 262144) + 4096 * (n / 4096 % 64) + 64 * (n / 64 % 64) + n % 64
  {
    ThreeDigits(n);
    assert n / 4096 / 64 == n / 262144;
  }

  lemma {:induction false} Utf8Injective(s: string, t: string)
    requires Utf8(s) == Utf8(t)
    ensures s == t
  {
    if s != [] && t != [] {
      EncodeCharPrefixFree(s[0], Utf8(s[1..]), t[0], Utf8(t[1..]));
      Utf8Injective(s[1..], t[1..]);
      assert s == [s[0]] + s[1..] && t == [t[0]] + t[1..];
    }
  }

  /** `char::is_control`: the general category Cc. */
  predicate IsControl(c: char) {
    var n := c as int;
    n < 0x20 || 0x7F <= n < 0xA0
  }

  /** `char::is_whitespace`: the White_Space property. */
  predicate IsWhitespace(c: char) {
    var n := c as int;
    0x09 <= n <= 0x0D || n == 0x20 || n == 0x85 || n == 0xA0 || n == 0x1680 || 0x2000 <= n <= 0x200A
    || n == 0x2028 || n == 0x2029 || n == 0x202F || n == 0x205F || n == 0x3000
  }

  // ---------------------------------------------------------------- big-endian integers

  function Pow256(w: nat): nat {
    if w == 0 then 1 else 256 * Pow256(w - 1)
  }

  /** The low `w` bytes of `n`, most significant first (`to_be_bytes`). */
  function BigEndian(n: nat, w: nat): (r: seq<byte>)
    ensures |r| == w
  {
    if w == 0 then [] else BigEndian(n / 256, w - 1) + [n % 256]
  }

  /** `from_be_bytes`. */
  function FromBigEndian(b: seq<byte>): nat {
    if b == [] then 0 else 256 * FromBigEndian(b[..|b| - 1]) + b[|b| - 1]
  }

  lemma {:induction false} BigEndianRoundTrip(n: nat, w: nat)
    requires n < Pow256(w)
    ensures FromBigEndian(BigEndian(n, w)) == n
  {
    if w > 0 {
      BigEndianRoundTrip(n / 256, w - 1);
      var b := BigEndian(n, w);
      assert b[..|b| - 1] == BigEndian(n / 256, w - 1);
    }
  }

  lemma {:induction false} BigEndianInjective(m: nat, n: nat, w: nat)
    requires m < Pow256(w) && n < Pow256(w) && BigEndian(m, w) == BigEndian(n, w)
    ensures m == n
  {
    BigEndianRoundTrip(m, w);
    BigEndianRoundTrip(n, w);
  }

  lemma Pow256Values()
    ensures Pow256(1) == 256 && Pow256(2) == 0x1_0000 && Pow256(4) == 0x1_0000_0000 && Pow256(8) == U64_MAX + 1
  {
    assert Pow256(3) == 256 * Pow256(2) && Pow256(5) == 256 * Pow256(4) && Pow256(6) == 256 * Pow256(5);
    assert Pow256(7) == 256 * Pow256(6);
  }

  // ---------------------------------------------------------------- split and join

  /** `str::split(sep)`: always at least one part. */
  function Split<T(==)>(s: seq<T>, sep: T): (r: seq<seq<T>>)
    ensures |r| >= 1
  {
    if s == [] then [[]]
    else
      var rest := Split(s[1..], sep);
      if s[0] == sep then [[]] + rest else [[s[0]] + rest[0]] + rest[1..]
  }

  /** `join(sep)`. */
  function Join<T>(parts: seq<seq<T>>, sep: T): seq<T> {
    if |parts| == 0 then [] else if |parts| == 1 then parts[0] else parts[0] + [sep] + Join(parts[1..], sep)
  }

  ghost predicate Separable<T>(parts: seq<seq<T>>, sep: T) {
    forall p :: p in parts ==> sep !in p
  }

  lemma {:induction false} SplitPrefix<T>(p: seq<T>, tail: seq<T>, sep: T)
    requires sep !in p
    ensures Split(p, sep) == [p]
    ensures Split(p + [sep] + tail, sep) == [p] + Split(tail, sep)
  {
    var s := p + [sep] + tail;
    if p == [] {
      assert s[1..] == tail;
    } else {
      SplitPrefix(p[1..], tail, sep);
      assert s[1..] == p[1..] + [sep] + tail;
      assert [p[0]] + p[1..] == p;
    }
  }

  /** Joining parts that do not hold the separator and splitting again gives the parts back. */
  lemma {:induction false} SplitJoin<T>(parts: seq<seq<T>>, sep: T)
    requires |parts| >= 1 && Separable(parts, sep)
    ensures Split(Join(parts, sep), sep) == parts
  {
    if |parts| == 1 {
      SplitPrefix(parts[0], [], sep);
    } else {
      SplitJoin(parts[1..], sep);
      SplitPrefix(parts[0], Join(parts[1..], sep), sep);
      assert parts == [parts[0]] + parts[1..];
    }
  }

  /** Splitting loses nothing, and no part holds the separator. */
  lemma {:induction false} JoinSplit<T>(s: seq<T>, sep: T)
    ensures Join(Split(s, sep), sep) == s
    ensures Separable(Split(s, sep), sep)
  {
    if s != [] {
      JoinSplit(s[1..], sep);
      var rest := Split(s[1..], sep);
      assert s == [s[0]] + s[1..];
      JoinStep(rest, s[0], sep);
    }
  }

  lemma JoinStep<T>(rest: seq<seq<T>>, c: T, sep: T)
    requires |rest| >= 1 && Separable(rest, sep)
    ensures var r := if c == sep then [[]] + rest else [[c] + rest[0]] + rest[1..];
            Join(r, sep) == [c] + Join(rest, sep) && Separable(r, sep)
  {
    if c == sep {
      var r := [[]] + rest;
      assert r[1..] == rest;
    } else {
      var r := [[c] + rest[0]] + rest[1..];
      assert r[1..] == rest[1..];
      assert rest[0] in rest && forall p :: p in rest[1..] ==> p in rest;
    }
  }

  // ---------------------------------------------------------------- byte order

  /** Lexicographic order of byte strings, the `Ord` of slices and of `str`. */
  predicate LexLeq(a: seq<byte>, b: seq<byte>) {
    a == [] || (b != [] && (a[0] < b[0] || (a[0] == b[0] && LexLeq(a[1..], b[1..]))))
  }

  lemma {:induction false} LexTotal(a: seq<byte>, b: seq<byte>)
    ensures LexLeq(a, b) || LexLeq(b, a)
    ensures LexLeq(a, b) && LexLeq(b, a) ==> a == b
    ensures LexLeq(a, a)
  {
    if a != [] && b != [] {
      LexTotal(a[1..], b[1..]);
      assert a == [a[0]] + a[1..] && b == [b[0]] + b[1..];
    } else if a != [] {
      LexTotal(a[1..], b);
    }
  }

  lemma {:induction false} LexTransitive(a: seq<byte>, b: seq<byte>, c: seq<byte>)
    requires LexLeq(a, b) && LexLeq(b, c)
    ensures LexLeq(a, c)
  {
    if a != [] && a[0] == b[0] && b[0] == c[0] {
      LexTransitive(a[1..], b[1..], c[1..]);
    }
  }
}
