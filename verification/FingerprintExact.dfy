/** Two events feed the digest the same bytes exactly when their normalised scopes and identities are equal. */
module FingerprintExact {
  import opened Text
  import opened DnsCodes
  import opened Fingerprint

  // ---------------------------------------------------------------- trimming

  ghost predicate AllTrimmable(s: string) { forall c :: c in s ==> Trimmable(c) }

  /** Nothing more can be taken off either end. */
  ghost predicate Clean(s: string) { s != [] ==> !Trimmable(s[0]) && !Trimmable(s[|s| - 1]) }

  lemma {:induction false} TrimStartIs(s: string) returns (left: string)
    ensures s == left + TrimStart(s) && AllTrimmable(left)
    ensures TrimStart(s) != [] ==> !Trimmable(TrimStart(s)[0])
  {
    if s != [] && Trimmable(s[0]) {
      var more := TrimStartIs(s[1..]);
      left := [s[0]] + more;
      assert s == [s[0]] + s[1..];
    } else {
      left := [];
    }
  }

  lemma {:induction false} TrimEndIs(s: string) returns (right: string)
    ensures s == TrimEnd(s) + right && AllTrimmable(right)
    ensures TrimEnd(s) != [] ==> TrimEnd(s)[0] == s[0] && !Trimmable(TrimEnd(s)[|TrimEnd(s)| - 1])
  {
    if s != [] && Trimmable(s[|s| - 1]) {
      var more := TrimEndIs(s[..|s| - 1]);
      right := more + [s[|s| - 1]];
      assert s == s[..|s| - 1] + [s[|s| - 1]];
    } else {
      right := [];
      assert s == s + [];
    }
  }

  /** The normal form of a text: only trimmable characters are taken off, and all of them at either end. */
  lemma TrimIs(s: string) returns (left: string, right: string)
    ensures s == left + Trim(s) + right && AllTrimmable(left) && AllTrimmable(right) && Clean(Trim(s))
  {
    left := TrimStartIs(s);
    right := TrimEndIs(TrimStart(s));
  }

  /** There is only one such form, so texts that differ only at their trimmable ends are normalised alike. */
  lemma {:induction false} TrimUnique(left: string, core: string, right: string)
    requires AllTrimmable(left) && AllTrimmable(right) && Clean(core)
    ensures Trim(left + core + right) == core
  {
    if left != [] {
      TrimUnique(left[1..], core, right);
      assert (left + core + right)[1..] == left[1..] + core + right;
    } else {
      assert left + core + right == core + right;
      TrimRight(core, right);
    }
  }

  lemma {:induction false} TrimRight(core: string, right: string)
    requires AllTrimmable(right) && Clean(core)
    ensures Trim(core + right) == core
  {
    if core != [] {
      assert TrimStart(core + right) == core + right;
      TrimEndOff(core, right);
    } else {
      assert core + right == right;
      TrimStartAll(right);
    }
  }

  lemma {:induction false} TrimStartAll(s: string)
    requires AllTrimmable(s)
    ensures TrimStart(s) == []
  {
    if s != [] {
      TrimStartAll(s[1..]);
    }
  }

  lemma {:induction false} TrimEndOff(core: string, right: string)
    requires AllTrimmable(right) && core != [] && !Trimmable(core[|core| - 1])
    ensures TrimEnd(core + right) == core
  {
    var s := core + right;
    if right == [] {
      assert s == core;
    } else {
      assert s[..|s| - 1] == core + right[..|right| - 1];
      TrimEndOff(core, right[..|right| - 1]);
    }
  }

  // ---------------------------------------------------------------- the field encoding

  lemma FourParts(a: seq<byte>, b: seq<byte>, c: seq<byte>, d: seq<byte>)
    ensures a + b + c + d == a + (b + c + d)
  {}

  lemma {:induction false} EncodeFront(f: seq<byte>, rest: seq<seq<byte>>)
    ensures Encode([f] + rest) == LengthPrefix(|f|) + f + Encode(rest)
  {
    hide LengthPrefix;
    var all := [f] + rest;
    if rest == [] {
      assert all[..|all| - 1] == [] && all[|all| - 1] == f;
      assert Encode(all) == [] + LengthPrefix(|f|) + f;
    } else {
      var front, last := rest[..|rest| - 1], rest[|rest| - 1];
      assert all[..|all| - 1] == [f] + front && all[|all| - 1] == last;
      EncodeFront(f, front);
      FourParts(LengthPrefix(|f|) + f, Encode(front), LengthPrefix(|last|), last);
    }
  }

  lemma SplitAt<T>(p: seq<T>, f: seq<T>, x: seq<T>, q: seq<T>, g: seq<T>, y: seq<T>)
    requires |p| == |q| && p + f + x == q + g + y
    ensures p == q && (|f| == |g| ==> f == g && x == y)
  {
    var s, t := p + f + x, q + g + y;
    assert p == s[..|p|] == t[..|q|] == q;
    if |f| == |g| {
      assert f == s[|p|..|p| + |f|] == t[|q|..|q| + |g|] == g;
      assert x == s[|p| + |f|..] == t[|q| + |g|..] == y;
    }
  }

  lemma FirstField(f: seq<byte>, x: seq<byte>, g: seq<byte>, y: seq<byte>)
    requires |f| <= U64_MAX && |g| <= U64_MAX && LengthPrefix(|f|) + f + x == LengthPrefix(|g|) + g + y
    ensures f == g && x == y
  {
    hide BigEndian;
    SplitAt(LengthPrefix(|f|), f, x, LengthPrefix(|g|), g, y);
    Pow256Values();
    BigEndianInjective(|f|, |g|, 8);
  }

  lemma {:induction false} EncodeSize(fs: seq<seq<byte>>)
    ensures fs != [] ==> |Encode(fs)| >= 8
  {}

  /** The digest's input determines the list of fields, not only their concatenation. */
  lemma {:induction false} EncodeInjective(fs: seq<seq<byte>>, gs: seq<seq<byte>>)
    requires Addressable(fs) && Addressable(gs) && Encode(fs) == Encode(gs)
    ensures fs == gs
  {
    EncodeSize(fs);
    EncodeSize(gs);
    if fs != [] {
      assert fs == [fs[0]] + fs[1..];
      EncodeFront(fs[0], fs[1..]);
      assert gs == [gs[0]] + gs[1..];
      EncodeFront(gs[0], gs[1..]);
      FirstField(fs[0], Encode(fs[1..]), gs[0], Encode(gs[1..]));
      EncodeInjective(fs[1..], gs[1..]);
    }
  }

  // ---------------------------------------------------------------- names

  /** A number for each form of identity. */
  function Form(i: Identity): nat {
    match i
    case Started(_) => 0
    case Executed(_) => 1
    case Called(_, _) => 2
    case Connected(_, _, _, _) => 3
    case Listened(_, _, _, _) => 4
    case Accepted(_, _, _, _) => 5
    case Queried(_, _, _) => 6
    case Answered(_, _, _, _) => 7
    case Touched(Create, _, _) => 8
    case Touched(Modify, _, _) => 9
    case Touched(Delete, _, _) => 10
    case Renamed(_, _, _, _) => 11
    case Ended(_, _) => 12
    case Terminated(_, _, _) => 13
    case Restarted(_) => 14
  }

  /** The form a kind names. */
  function FormNamed(kind: string): nat {
    if kind == "process.start" then 0
    else if kind == "process.exec" then 1
    else if kind == "syscall" then 2
    else if kind == "network.connect" then 3
    else if kind == "network.listen" then 4
    else if kind == "network.accept" then 5
    else if kind == "network.dns.query" then 6
    else if kind == "network.dns.response" then 7
    else if kind == "file.create" then 8
    else if kind == "file.modify" then 9
    else if kind == "file.delete" then 10
    else if kind == "file.rename" then 11
    else if kind == "process.exit" then 12
    else if kind == "container.terminated" then 13
    else 14
  }

  /** The fifteen kinds are distinct names. */
  lemma KindNamesForm(i: Identity)
    ensures FormNamed(KindOf(i)) == Form(i)
  {
    match i
    case Started(_) =>
    case Executed(_) => assert KindOf(i)[8] != "process.start"[8];
    case Called(_, _) =>
    case Connected(_, _, _, _) =>
    case Listened(_, _, _, _) =>
    case Accepted(_, _, _, _) => assert KindOf(i)[8] != "network.listen"[8];
    case Queried(_, _, _) =>
    case Answered(_, _, _, _) =>
    case Touched(Create, _, _) =>
    case Touched(Modify, _, _) => assert KindOf(i)[5] != "file.create"[5];
    case Touched(Delete, _, _) => assert KindOf(i)[5] != "file.create"[5] && KindOf(i)[5] != "file.modify"[5];
    case Renamed(_, _, _, _) =>
      assert KindOf(i)[5] != "file.create"[5] && KindOf(i)[5] != "file.modify"[5] && KindOf(i)[5] != "file.delete"[5];
    case Ended(_, _) => assert KindOf(i)[10] != "process.exec"[10];
    case Terminated(_, _, _) => assert KindOf(i)[0] != "network.dns.response"[0];
    case Restarted(_) => assert KindOf(i)[0] != "network.dns.query"[0];
  }

  lemma FamilyNames(f: Family, g: Family)
    requires FamilyName(f) == FamilyName(g)
    ensures f == g
  {
    assert FamilyName(f)[3] == FamilyName(g)[3];
  }

  lemma QueryTypeNames(f: QueryType, g: QueryType)
    requires QueryTypeName(f) == QueryTypeName(g)
    ensures f == g
  {}

  lemma CodeNames(f: ResponseCode, g: ResponseCode)
    requires CodeName(f) == CodeName(g)
    ensures f == g
  {
    var a, b := CodeName(f), CodeName(g);
    assert |a| == |b| && a[0] == b[0] && a[1] == b[1] && a[2] == b[2];
  }

  lemma {:induction false} PortBytes(p: u16, q: u16)
    requires BigEndian(p, 2) == BigEndian(q, 2)
    ensures p == q
  {
    Pow256Values();
    BigEndianInjective(p, q, 2);
  }

  lemma CodeBytes(m: i32, n: i32)
    requires SignedBytes(m) == SignedBytes(n)
    ensures m == n
  {
    Pow256Values();
    BigEndianInjective(if m < 0 then m + 0x1_0000_0000 else m, if n < 0 then n + 0x1_0000_0000 else n, 4);
  }

  lemma EndpointExact(f: Family, a: IpAddr, p: u16, g: Family, b: IpAddr, q: u16)
    requires Endpoint(f, a, p) == Endpoint(g, b, q)
    ensures f == g && a == b && p == q
  {
    var x, y := Endpoint(f, a, p), Endpoint(g, b, q);
    assert x[0] == y[0] && x[1] == y[1] && x[2] == y[2];
    Utf8Injective(FamilyName(f), FamilyName(g));
    FamilyNames(f, g);
    PortBytes(p, q);
  }

  // ---------------------------------------------------------------- identities

  lemma {:induction false} ThreeTexts(a: string, b: string, c: string, d: string, e: string, f: string)
    requires Utf8(a) == Utf8(d) && Utf8(b) == Utf8(e) && Utf8(c) == Utf8(f)
    ensures a == d && b == e && c == f
  {
    Utf8Injective(a, d);
    Utf8Injective(b, e);
    Utf8Injective(c, f);
  }

  lemma ConnectionExact(head: seq<seq<byte>>, f: Family, a: IpAddr, p: u16, next: seq<seq<byte>>, g: Family, b: IpAddr, q: u16)
    requires |head| == |next| && head + Endpoint(f, a, p) == next + Endpoint(g, b, q)
    ensures head == next && f == g && a == b && p == q
  {
    hide Endpoint;
    var s, t := head + Endpoint(f, a, p), next + Endpoint(g, b, q);
    assert head == s[..|head|] == t[..|next|] == next;
    assert Endpoint(f, a, p) == s[|head|..] == t[|next|..] == Endpoint(g, b, q);
    EndpointExact(f, a, p, g, b, q);
  }

  lemma ConnectedExact(i: Identity, j: Identity)
    requires Form(i) == Form(j) && 3 <= Form(i) <= 5 && IdentityFields(i) == IdentityFields(j)
    ensures i == j
  {
    hide Endpoint;
    hide Utf8;
    var x, y := IdentityFields(i), IdentityFields(j);
    assert x[0] == Utf8(i.command) && y[0] == Utf8(j.command);
    Utf8Injective(i.command, j.command);
    if i.Connected? {
      ConnectionExact([Utf8(i.command)], i.family, i.address, i.port, [Utf8(j.command)], j.family, j.address, j.port);
    } else {
      ConnectionExact([Utf8(i.command), Utf8("tcp")], i.family, i.address, i.port,
                      [Utf8(j.command), Utf8("tcp")], j.family, j.address, j.port);
    }
  }

  lemma AnsweredExact(i: Identity, j: Identity)
    requires Form(i) == Form(j) && 6 <= Form(i) <= 7 && IdentityFields(i) == IdentityFields(j)
    ensures i == j
  {
    hide Utf8;
    var x, y := IdentityFields(i), IdentityFields(j);
    assert x[0] == y[0] && x[1] == y[1] && x[2] == y[2];
    ThreeTexts(i.command, i.name, QueryTypeName(i.queryType), j.command, j.name, QueryTypeName(j.queryType));
    QueryTypeNames(i.queryType, j.queryType);
    if i.Answered? {
      assert x[3] == y[3];
      Utf8Injective(CodeName(i.code), CodeName(j.code));
      CodeNames(i.code, j.code);
    }
  }

  lemma TouchedExact(i: Identity, j: Identity)
    requires Form(i) == Form(j) && 8 <= Form(i) <= 10 && IdentityFields(i) == IdentityFields(j)
    ensures i == j
  {
    hide Utf8;
    var x, y := IdentityFields(i), IdentityFields(j);
    assert x[0] == y[0] && x[2] == y[2];
    Utf8Injective(i.command, j.command);
    Utf8Injective(i.path, j.path);
  }

  /** A rename's two optional parts: the new path is always there, and the last field only when it is known. */
  lemma RenamedExact(i: Identity, j: Identity)
    requires i.Renamed? && j.Renamed? && IdentityFields(i) == IdentityFields(j)
    ensures i == j
  {
    hide Utf8;
    var x, y := IdentityFields(i), IdentityFields(j);
    assert x[0] == y[0] && x[2] == y[2] && x[3] == y[3];
    ThreeTexts(i.command, i.path, i.newPath, j.command, j.path, j.newPath);
    assert |x| == if i.replaced.None? then 4 else 5;
    assert |y| == if j.replaced.None? then 4 else 5;
    if i.replaced.Some? {
      assert x[4] == y[4];
      assert x[4][0] == y[4][0];
    }
  }

  lemma EndedExact(i: Identity, j: Identity)
    requires i.Ended? && j.Ended? && IdentityFields(i) == IdentityFields(j)
    ensures i == j
  {
    hide Utf8;
    var x, y := IdentityFields(i), IdentityFields(j);
    assert x[0] == y[0] && x[1] == y[1] && x[2] == y[2] && x[2][0] == y[2][0];
    Utf8Injective(i.who, j.who);
    Utf8Injective(if i.ending.ByExit? then "exited" else "signaled", if j.ending.ByExit? then "exited" else "signaled");
    assert |"exited"| != |"signaled"|;
  }

  lemma TerminatedExact(i: Identity, j: Identity)
    requires i.Terminated? && j.Terminated? && IdentityFields(i) == IdentityFields(j)
    ensures i == j
  {
    hide Utf8;
    hide SignedBytes;
    var x, y := IdentityFields(i), IdentityFields(j);
    assert x[0] == y[0] && x[1] == y[1] && x[2] == y[2];
    Utf8Injective(i.container, j.container);
    Utf8Injective(i.reason, j.reason);
    CodeBytes(i.exitCode, j.exitCode);
  }

  lemma PlainExact(i: Identity, j: Identity)
    requires Form(i) == Form(j) && (Form(i) <= 2 || Form(i) == 14) && IdentityFields(i) == IdentityFields(j)
    ensures i == j
  {
    hide Utf8;
    var x, y := IdentityFields(i), IdentityFields(j);
    assert x[0] == y[0];
    match i
    case Started(command) => Utf8Injective(command, j.command);
    case Executed(executable) => Utf8Injective(executable, j.executable);
    case Called(command, syscall) =>
      assert x[1] == y[1];
      Utf8Injective(command, j.command);
      Utf8Injective(syscall, j.syscall);
    case Restarted(container) => Utf8Injective(container, j.container);
  }

  /** Within one kind the fields determine the identity. */
  lemma IdentityExact(i: Identity, j: Identity)
    requires Form(i) == Form(j) && IdentityFields(i) == IdentityFields(j)
    ensures i == j
  {
    hide IdentityFields;
    if Form(i) <= 2 || Form(i) == 14 {
      PlainExact(i, j);
    } else if Form(i) <= 5 {
      ConnectedExact(i, j);
    } else if Form(i) <= 7 {
      AnsweredExact(i, j);
    } else if Form(i) <= 10 {
      TouchedExact(i, j);
    } else if Form(i) == 11 {
      RenamedExact(i, j);
    } else if Form(i) == 12 {
      EndedExact(i, j);
    } else {
      TerminatedExact(i, j);
    }
  }

  lemma ScopeExact(s: Scope, t: Scope)
    requires ScopeFields(s) == ScopeFields(t)
    ensures s == t
  {
    hide Utf8;
    hide BigEndian;
    var x, y := ScopeFields(s), ScopeFields(t);
    assert x[2] == y[2] && x[3] == y[3] && x[4] == y[4] && x[5] == y[5];
    assert x[6] == y[6] && x[7] == y[7] && x[8] == y[8];
    ThreeTexts(s.namespace, s.workloadKind, s.workloadName, t.namespace, t.workloadKind, t.workloadName);
  }

  lemma FieldsExact(g: Group, h: Group)
    requires GroupFields(g) == GroupFields(h)
    ensures g == h
  {
    hide IdentityFields;
    hide Form;
    hide FormNamed;
    hide KindOf;
    hide Utf8;
    assert |ScopeFields(g.scope)| == 9 == |ScopeFields(h.scope)|;
    hide ScopeFields;
    SplitAt(ScopeFields(g.scope), [Utf8(KindOf(g.identity))], IdentityFields(g.identity),
            ScopeFields(h.scope), [Utf8(KindOf(h.identity))], IdentityFields(h.identity));
    ScopeExact(g.scope, h.scope);
    Utf8Injective(KindOf(g.identity), KindOf(h.identity));
    KindNamesForm(g.identity);
    KindNamesForm(h.identity);
    IdentityExact(g.identity, h.identity);
  }

  /** The event kind in the digest's input is the event's own. */
  lemma KindIsEventKind(event: Event)
    requires IdentityOf(event).Good?
    ensures KindOf(IdentityOf(event).value) == EventKind(event.payload)
  {
    hide Required;
    hide Lower;
    match event.payload
    case ProcessStart(_) =>
    case ProcessExec(_, _) =>
    case Syscall(_) =>
    case NetworkConnect(_, _, _, _, _) =>
    case NetworkListen(_, _, _) =>
    case NetworkAccept(_, _, _, _, _) =>
    case NetworkDnsQuery(_, _, _, _) =>
    case NetworkDnsResponse(_, _, _, _, _) =>
    case FileCreate(_) =>
    case FileModify(_) =>
    case FileDelete(_) =>
    case FileRename(_, _, _) =>
    case ProcessExit(_, _, _) =>
    case ContainerTermination(_, _, _) =>
    case ContainerRestart(_, _, _) =>
  }

  /**
   Exact grouping: two events feed the digest the same bytes if and only if their scopes and their identities are
   equal after normalisation, over all event kinds.
   */
  lemma PreimageExact(s: Scope, d: Event, t: Scope, e: Event)
    requires GroupOf(s, d).Good? && GroupOf(t, e).Good?
    requires Addressable(GroupFields(GroupOf(s, d).value)) && Addressable(GroupFields(GroupOf(t, e).value))
    ensures Preimage(s, d) == Preimage(t, e) <==> GroupOf(s, d) == GroupOf(t, e)
  {
    hide GroupOf;
    hide GroupFields;
    hide Encode;
    var g, h := GroupOf(s, d).value, GroupOf(t, e).value;
    if Preimage(s, d) == Preimage(t, e) {
      EncodeInjective(GroupFields(g), GroupFields(h));
      FieldsExact(g, h);
    }
  }
}
