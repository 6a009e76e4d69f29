/** Normalised absolute paths as component lists, and the descendant test as list prefix. */
module FilePaths {
  import opened Text

  const MAX_FILE_PATH_BYTES: nat := 1024

  datatype PathError = PathTooLong | InvalidPath

  datatype Checked = Valid(path: string) | Invalid(error: PathError)

  predicate SpecialName(part: string) { part == [] || part == "." || part == ".." }

  /** What the platform's own splitting of an absolute path leaves after the root: empty and current-directory parts are skipped. */
  predicate PlainParts(value: string)
    requires value != []
  {
    forall part :: part in Split(value[1..], '/') && part != [] && part != "." ==> part != ".."
  }

  /** `is_normalized_absolute_path`. */
  predicate IsNormalized(value: string) {
    && value != [] && '\0' !in value && value[0] == '/'
    && (value == "/" || forall part :: part in Split(value, '/')[1..] ==> !SpecialName(part))
    && PlainParts(value)
    && (value == "/" || value[|value| - 1] != '/')
  }

  /** `FileActivityPath::new`. */
  function NewPath(value: string): Checked {
    if |Utf8(value)| > MAX_FILE_PATH_BYTES then Invalid(PathTooLong)
    else if !IsNormalized(value) then Invalid(InvalidPath)
    else Valid(value)
  }

  predicate StartsWith(s: string, prefix: string) { |prefix| <= |s| && s[..|prefix|] == prefix }

  /** `is_equal_or_descendant_of`, a test on the text. */
  predicate EqualOrDescendant(path: string, prefix: string) {
    path == prefix ||
    (StartsWith(path, prefix) && (prefix == "/" || (var suffix := path[|prefix|..]; suffix != [] && suffix[0] == '/')))
  }

  // ---------------------------------------------------------------- component lists

  predicate IsName(part: string) { !SpecialName(part) && '/' !in part && '\0' !in part }

  ghost predicate AllNames(names: seq<string>) { forall n :: n in names ==> IsName(n) }

  function Render(names: seq<string>): string { "/" + Join(names, '/') }

  function Components(value: string): seq<string> { if value == "/" then [] else Split(value, '/')[1..] }

  lemma {:induction false} SplitStep<T>(s: seq<T>, sep: T)
    requires s != []
    ensures var rest := Split(s[1..], sep);
            Split(s, sep) == if s[0] == sep then [[]] + rest else [[s[0]] + rest[0]] + rest[1..]
  {}

  lemma Glue<T>(a: T, rest: seq<T>, more: seq<T>)
    ensures [a] + (rest + more) == [a] + rest + more
    ensures rest != [] ==> (rest + more)[0] == rest[0] && (rest + more)[1..] == rest[1..] + more
  {}

  lemma {:induction false} SplitAppend(x: string, tail: string, sep: char)
    ensures Split(x + [sep] + tail, sep) == Split(x, sep) + Split(tail, sep)
  {
    var s := x + [sep] + tail;
    SplitStep(s, sep);
    if x == [] {
      assert s[1..] == tail;
    } else {
      SplitStep(x, sep);
      hide Split;
      SplitAppend(x[1..], tail, sep);
      assert s[1..] == x[1..] + [sep] + tail && s[0] == x[0];
      var rest, more := Split(x[1..], sep), Split(tail, sep);
      Glue([], rest, more);
      Glue([x[0]] + rest[0], rest[1..], more);
    }
  }

  lemma {:induction false} JoinAppend<T>(p: seq<seq<T>>, q: seq<seq<T>>, sep: T)
    requires p != [] && q != []
    ensures Join(p + q, sep) == Join(p, sep) + [sep] + Join(q, sep)
  {
    if |p| == 1 {
      assert (p + q)[1..] == q;
    } else {
      JoinAppend(p[1..], q, sep);
      assert (p + q)[1..] == p[1..] + q;
    }
  }

  /** An absolute path splits into an empty part and its components. */
  lemma {:induction false} SplitRooted(value: string)
    requires value != [] && value[0] == '/'
    ensures Split(value, '/') == [[]] + Split(value[1..], '/')
  {}

  lemma {:induction false} JoinHolds(names: seq<string>, c: char)
    requires c in Join(names, '/') && c != '/'
    ensures exists n :: n in names && c in n
  {
    if |names| == 1 {
      assert names[0] in names;
    } else if |names| > 1 {
      if c in names[0] {
        assert names[0] in names;
      } else {
        assert c in Join(names[1..], '/');
        JoinHolds(names[1..], c);
        var n :| n in names[1..] && c in n;
        assert n in names;
      }
    }
  }

  lemma {:induction false} PartsHold(s: string, c: char, part: string)
    requires part in Split(s, '/') && c in part
    ensures c in s
  {
    if s != [] {
      var rest := Split(s[1..], '/');
      if part in rest {
        PartsHold(s[1..], c, part);
      } else if s[0] != '/' {
        assert part == [s[0]] + rest[0];
        if c != s[0] {
          PartsHold(s[1..], c, rest[0]);
        }
      }
    }
  }

  /** Rendering a list of names gives a normalised path with exactly those components. */
  lemma {:induction false} RenderNormal(names: seq<string>)
    requires AllNames(names)
    ensures IsNormalized(Render(names)) && Components(Render(names)) == names
  {
    var value := Render(names);
    assert value[1..] == Join(names, '/');
    if '\0' in value {
      JoinHolds(names, '\0');
    }
    SplitRooted(value);
    if names == [] {
      assert value == "/";
      assert Split(value[1..], '/') == [[]];
    } else {
      assert names[|names| - 1] in names;
      SplitJoin(names, '/');
      LastOfJoin(names);
    }
  }

  lemma {:induction false} LastOfJoin(names: seq<string>)
    requires names != [] && names[|names| - 1] != []
    ensures Join(names, '/') != [] && Join(names, '/')[|Join(names, '/')| - 1] == names[|names| - 1][|names[|names| - 1]| - 1]
  {
    if |names| > 1 {
      LastOfJoin(names[1..]);
    }
  }

  /** A path is normalised exactly when it is the rendering of its components, and these are names. */
  lemma NormalizedExact(value: string)
    ensures IsNormalized(value) <==> AllNames(Components(value)) && value == Render(Components(value))
  {
    if IsNormalized(value) {
      SplitRooted(value);
      if value != "/" {
        var parts := Split(value[1..], '/');
        assert Components(value) == parts;
        JoinSplit(value[1..], '/');
        assert value == ['/'] + value[1..];
        forall n | n in parts ensures IsName(n) {
          if '\0' in n {
            PartsHold(value[1..], '\0', n);
          }
        }
      }
    }
    if AllNames(Components(value)) && value == Render(Components(value)) {
      RenderNormal(Components(value));
    }
  }

  /** A text is taken as a path exactly when it is short enough and renders a list of names; length is checked first. */
  lemma {:induction false} NewPathExact(value: string)
    ensures NewPath(value) == Valid(value) <==> |Utf8(value)| <= 1024 && exists names :: AllNames(names) && value == Render(names)
    ensures NewPath(value) == Invalid(PathTooLong) <==> |Utf8(value)| > 1024
  {
    NormalizedExact(value);
    forall names | AllNames(names) && value == Render(names) ensures IsNormalized(value) {
      RenderNormal(names);
    }
  }

  // ---------------------------------------------------------------- descendants

  /** On normalised paths the text test is the component test: the prefix's names are the first of the path's names. */
  lemma DescendantExact(path: string, prefix: string)
    requires IsNormalized(path) && IsNormalized(prefix)
    ensures EqualOrDescendant(path, prefix) <==> Components(prefix) <= Components(path)
  {
    hide IsNormalized;
    hide EqualOrDescendant;
    if EqualOrDescendant(path, prefix) {
      DescendantComponents(path, prefix);
    }
    if Components(prefix) <= Components(path) {
      ComponentsDescendant(path, prefix);
    }
  }

  lemma DropFirst<T>(p: seq<T>, q: seq<T>)
    requires p != []
    ensures (p + q)[1..] == p[1..] + q && p[1..] <= p[1..] + q
  {}

  lemma ComponentsAppend(prefix: string, tail: string)
    requires prefix != [] && prefix != "/"
    ensures Components(prefix) <= Components(prefix + ['/'] + tail)
  {
    hide Split;
    assert |prefix + ['/'] + tail| > 1;
    SplitAppend(prefix, tail, '/');
    DropFirst(Split(prefix, '/'), Split(tail, '/'));
  }

  lemma DescendantComponents(path: string, prefix: string)
    requires IsNormalized(path) && IsNormalized(prefix) && EqualOrDescendant(path, prefix)
    ensures Components(prefix) <= Components(path)
  {
    assert prefix != [];
    hide IsNormalized;
    hide Split;
    if path != prefix && prefix != "/" {
      var tail := path[|prefix| + 1..];
      assert path == prefix + ['/'] + tail;
      ComponentsAppend(prefix, tail);
    }
  }

  lemma ComponentsDescendant(path: string, prefix: string)
    requires IsNormalized(path) && IsNormalized(prefix) && Components(prefix) <= Components(path)
    ensures EqualOrDescendant(path, prefix)
  {
    hide IsNormalized;
    hide Components;
    NormalizedExact(path);
    NormalizedExact(prefix);
    var p, q := Components(path), Components(prefix);
    if q == [] {
      assert prefix == "/" && path[..1] == "/";
    } else if |p| == |q| {
      assert p == q;
    } else {
      var rest := p[|q|..];
      assert p == q + rest;
      JoinAppend(q, rest, '/');
      assert path == prefix + ['/'] + Join(rest, '/');
      assert path[..|prefix|] == prefix && path[|prefix|] == '/';
    }
  }

  /** So it is a partial order with the root above everything. */
  lemma DescendantOrder(a: string, b: string, c: string)
    requires IsNormalized(a) && IsNormalized(b) && IsNormalized(c)
    ensures EqualOrDescendant(a, a) && EqualOrDescendant(a, "/")
    ensures EqualOrDescendant(a, b) && EqualOrDescendant(b, a) ==> a == b
    ensures EqualOrDescendant(a, b) && EqualOrDescendant(b, c) ==> EqualOrDescendant(a, c)
  {
    hide IsNormalized;
    hide EqualOrDescendant;
    DescendantExact(a, a);
    NormalizedExact(a);
    NormalizedExact(b);
    DescendantExact(a, b);
    DescendantExact(b, a);
    DescendantExact(b, c);
    DescendantExact(a, c);
    RenderNormal([]);
    assert Render([]) == "/";
    DescendantExact(a, "/");
    if Components(a) <= Components(b) && Components(b) <= Components(a) {
      assert Components(a) == Components(b);
    }
  }
}
