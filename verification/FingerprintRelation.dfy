/** Which raw events share a fingerprint, kind by kind, and which are refused. */
module FingerprintRelation {
  import opened Text
  import opened Fingerprint
  import opened FingerprintExact

  // ---------------------------------------------------------------- what has to agree

  predicate SameText(a: string, b: string) { Trim(a) == Trim(b) }

  /** Equal up to the case of ASCII letters. */
  predicate SameLetter(c: char, d: char) {
    c == d || ('A' <= c <= 'Z' && d == c - 'A' + 'a') || ('A' <= d <= 'Z' && c == d - 'A' + 'a')
  }

  predicate SameWord(a: string, b: string) {
    var x, y := Trim(a), Trim(b);
    |x| == |y| && forall i :: 0 <= i < |x| ==> SameLetter(x[i], y[i])
  }

  predicate SameScope(s: Scope, t: Scope) {
    && s.organization == t.organization && s.project == t.project && s.application == t.application && s.cluster == t.cluster
    && SameText(s.namespace, t.namespace) && SameText(s.workloadKind, t.workloadKind) && SameText(s.workloadName, t.workloadName)
  }

  predicate SameEnding(t: Termination, u: Termination) {
    || (t.Exited? && u.Exited? && t.status == u.status)
    || (t.Signaled? && u.Signaled? && t.signal == u.signal)
  }

  /** Who ended: the executable of a correlated exit, otherwise the command. */
  function Culprit(e: Event): string
    requires e.payload.ProcessExit?
  {
    if e.payload.correlation.Observed? then e.payload.correlation.executable else e.command
  }

  /** The fields that have to agree within each kind; all others are ignored. */
  predicate SamePayload(d: Event, e: Event) {
    var p, q := d.payload, e.payload;
    || (p.ProcessStart? && q.ProcessStart? && SameText(d.command, e.command))
    || (p.ProcessExec? && q.ProcessExec? && SameText(p.executable, q.executable))
    || (p.Syscall? && q.Syscall? && SameText(d.command, e.command) && SameWord(p.name, q.name))
    || (p.NetworkConnect? && q.NetworkConnect? && SameText(d.command, e.command)
        && p.family == q.family && p.address == q.address && p.port == q.port)
    || (p.NetworkListen? && q.NetworkListen? && SameText(d.command, e.command)
        && p.family == q.family && p.address == q.address && p.port == q.port)
    || (p.NetworkAccept? && q.NetworkAccept? && SameText(d.command, e.command)
        && p.family == q.family && p.address == q.address && p.port == q.port)
    || (p.NetworkDnsQuery? && q.NetworkDnsQuery? && SameText(d.command, e.command)
        && p.name == q.name && p.queryType == q.queryType)
    || (p.NetworkDnsResponse? && q.NetworkDnsResponse? && SameText(d.command, e.command)
        && p.name == q.name && p.queryType == q.queryType && p.code == q.code)
    || (p.FileCreate? && q.FileCreate? && SameText(d.command, e.command) && p.path == q.path)
    || (p.FileModify? && q.FileModify? && SameText(d.command, e.command) && p.path == q.path)
    || (p.FileDelete? && q.FileDelete? && SameText(d.command, e.command) && p.path == q.path)
    || (p.FileRename? && q.FileRename? && SameText(d.command, e.command)
        && p.path == q.path && p.newPath == q.newPath && p.replaced == q.replaced)
    || (p.ProcessExit? && q.ProcessExit? && SameText(Culprit(d), Culprit(e)) && SameEnding(p.termination, q.termination))
    || (p.ContainerTermination? && q.ContainerTermination? && SameText(d.container, e.container)
        && SameText(p.reason, q.reason) && p.exitCode == q.exitCode)
    || (p.ContainerRestart? && q.ContainerRestart? && SameText(d.container, e.container))
  }

  // ---------------------------------------------------------------- what has to be there

  /** The texts an event of each kind must have, with the names they are refused under, in the order they are looked at. */
  function Needed(e: Event): seq<(string, string)> {
    match e.payload
    case ThreadActivityWindow => []
    case ProcessExec(executable, _) => [("executable", executable)]
    case Syscall(name) => [("process_command", e.command), ("syscall_name", name)]
    case ProcessExit(_, Observed(_, _, executable), _) => [("executable", executable)]
    case ContainerTermination(_, reason, _) => [("container_name", e.container), ("termination_reason", reason)]
    case ContainerRestart(_, _, _) => [("container_name", e.container)]
    case _ => [("process_command", e.command)]
  }

  function AllNeeded(s: Scope, e: Event): seq<(string, string)> {
    [("namespace", s.namespace), ("workload_kind", s.workloadKind), ("workload_name", s.workloadName)] + Needed(e)
  }

  predicate Blank(text: string) { forall c :: c in text ==> c == '\0' || IsWhitespace(c) }

  /** The first blank text, if any. */
  function FirstBlank(needed: seq<(string, string)>): Option<string> {
    if needed == [] then None else if Blank(needed[0].1) then Some(needed[0].0) else FirstBlank(needed[1..])
  }

  /** Why an event is refused: a blank text, or a kind that is not grouped. */
  function Refusal(s: Scope, e: Event): Option<FingerprintError> {
    match FirstBlank(AllNeeded(s, e))
    case Some(name) => Some(EmptyField(name))
    case None => if e.payload.ThreadActivityWindow? then Some(UnsupportedEventKind) else None
  }

  // ---------------------------------------------------------------- refusals

  lemma BlankTrim(text: string)
    ensures Trim(text) == [] <==> Blank(text)
  {
    if Trim(text) == [] {
      var left, right := TrimIs(text);
      assert text == left + right;
    }
    if Blank(text) {
      TrimStartAll(text);
    }
  }

  lemma RequiredIs(name: string, value: string)
    ensures Required(name, value) == if Blank(value) then Bad(EmptyField(name)) else Good(Trim(value))
  {
    BlankTrim(value);
  }

  lemma {:induction false} BlankOne(a: (string, string))
    ensures FirstBlank([a]) == if Blank(a.1) then Some(a.0) else None
  {
    assert [a][1..] == [];
  }

  lemma {:induction false} BlankTwo(a: (string, string), b: (string, string))
    ensures FirstBlank([a, b]) == if Blank(a.1) then Some(a.0) else if Blank(b.1) then Some(b.0) else None
  {
    assert [a, b][1..] == [b];
    BlankOne(b);
  }

  lemma {:induction false} BlankBefore(first: seq<(string, string)>, rest: seq<(string, string)>)
    ensures FirstBlank(first + rest) == if FirstBlank(first).Some? then FirstBlank(first) else FirstBlank(rest)
  {
    if first == [] {
      assert first + rest == rest;
    } else {
      assert (first + rest)[1..] == first[1..] + rest;
      BlankBefore(first[1..], rest);
    }
  }

  lemma {:induction false} ScopeRefusal(s: Scope)
    ensures var first := FirstBlank([("namespace", s.namespace), ("workload_kind", s.workloadKind), ("workload_name", s.workloadName)]);
            if first.Some? then ScopeOf(s) == Bad(EmptyField(first.value))
            else ScopeOf(s) == Good(s.(namespace := Trim(s.namespace), workloadKind := Trim(s.workloadKind), workloadName := Trim(s.workloadName)))
  {
    RequiredIs("namespace", s.namespace);
    RequiredIs("workload_kind", s.workloadKind);
    RequiredIs("workload_name", s.workloadName);
    hide Required;
    hide Blank;
    var a, b, c := ("namespace", s.namespace), ("workload_kind", s.workloadKind), ("workload_name", s.workloadName);
    assert [a, b, c][1..] == [b, c];
    BlankTwo(b, c);
  }

  lemma {:induction false} IdentityRefusal(e: Event)
    ensures match FirstBlank(Needed(e))
            case Some(name) => IdentityOf(e) == Bad(EmptyField(name))
            case None => if e.payload.ThreadActivityWindow? then IdentityOf(e) == Bad(UnsupportedEventKind) else IdentityOf(e).Good?
  {
    RequiredIs("process_command", e.command);
    RequiredIs("container_name", e.container);
    BlankOne(("process_command", e.command));
    BlankOne(("container_name", e.container));
    hide Blank;
    match e.payload
    case ProcessExec(executable, _) =>
      RequiredIs("executable", executable);
      BlankOne(("executable", executable));
    case Syscall(name) =>
      RequiredIs("syscall_name", name);
      BlankTwo(("process_command", e.command), ("syscall_name", name));
    case ProcessExit(_, correlation, _) =>
      if correlation.Observed? {
        RequiredIs("executable", correlation.executable);
        BlankOne(("executable", correlation.executable));
      }
    case ContainerTermination(_, reason, _) =>
      RequiredIs("termination_reason", reason);
      BlankTwo(("container_name", e.container), ("termination_reason", reason));
    case _ =>
  }

  /** An event has no fingerprint exactly when a text it needs is blank or its kind is not grouped, and the error names the first. */
  lemma {:induction false} RefusalExact(s: Scope, e: Event)
    ensures match Refusal(s, e)
            case Some(error) => Preimage(s, e) == Bad(error)
            case None => Preimage(s, e).Good? && GroupOf(s, e).Good?
  {
    hide FirstBlank;
    hide ScopeOf;
    hide IdentityOf;
    BlankBefore([("namespace", s.namespace), ("workload_kind", s.workloadKind), ("workload_name", s.workloadName)], Needed(e));
    ScopeRefusal(s);
    IdentityRefusal(e);
  }

  // ---------------------------------------------------------------- agreement

  lemma ScopeAgrees(s: Scope, t: Scope)
    requires ScopeOf(s).Good? && ScopeOf(t).Good?
    ensures ScopeOf(s) == ScopeOf(t) <==> SameScope(s, t)
  {
    hide Trim;
  }

  lemma WordAgrees(a: string, b: string)
    ensures Lower(Trim(a)) == Lower(Trim(b)) <==> SameWord(a, b)
  {
    hide Trim;
    hide Lower;
    var x, y := Trim(a), Trim(b);
    if Lower(x) == Lower(y) {
      forall i | 0 <= i < |x| ensures SameLetter(x[i], y[i]) {
        assert Lower(x)[i] == Lower(y)[i];
      }
    }
  }

  /** The kind of a payload, as a number. */
  function Kind(p: Payload): nat {
    match p
    case ProcessStart(_) => 0
    case ProcessExec(_, _) => 1
    case Syscall(_) => 2
    case NetworkConnect(_, _, _, _, _) => 3
    case NetworkListen(_, _, _) => 4
    case NetworkAccept(_, _, _, _, _) => 5
    case NetworkDnsQuery(_, _, _, _) => 6
    case NetworkDnsResponse(_, _, _, _, _) => 7
    case FileCreate(_) => 8
    case FileModify(_) => 9
    case FileDelete(_) => 10
    case FileRename(_, _, _) => 11
    case ProcessExit(_, _, _) => 12
    case ContainerTermination(_, _, _) => 13
    case ContainerRestart(_, _, _) => 14
    case ThreadActivityWindow => 15
  }

  lemma {:induction false} KindOfIdentity(e: Event)
    requires IdentityOf(e).Good?
    ensures Form(IdentityOf(e).value) == Kind(e.payload) < 15
  {
    hide Required;
    hide Lower;
  }

  lemma SameKind(d: Event, e: Event)
    requires SamePayload(d, e)
    ensures Kind(d.payload) == Kind(e.payload)
  {
    hide Trim;
  }

  lemma CommandAgrees(d: Event, e: Event)
    requires IdentityOf(d).Good? && IdentityOf(e).Good? && Kind(d.payload) == Kind(e.payload) && Kind(d.payload) <= 7
    ensures IdentityOf(d) == IdentityOf(e) <==> SamePayload(d, e)
  {
    hide Trim;
    hide Lower;
    if d.payload.Syscall? {
      WordAgrees(d.payload.name, e.payload.name);
    }
    hide SameWord;
  }

  lemma OtherAgrees(d: Event, e: Event)
    requires IdentityOf(d).Good? && IdentityOf(e).Good? && Kind(d.payload) == Kind(e.payload) && 8 <= Kind(d.payload) <= 14
    ensures IdentityOf(d) == IdentityOf(e) <==> SamePayload(d, e)
  {
    hide Trim;
  }

  lemma {:induction false} PayloadAgrees(d: Event, e: Event)
    requires IdentityOf(d).Good? && IdentityOf(e).Good?
    ensures IdentityOf(d) == IdentityOf(e) <==> SamePayload(d, e)
  {
    KindOfIdentity(d);
    KindOfIdentity(e);
    if Kind(d.payload) == Kind(e.payload) {
      if Kind(d.payload) <= 7 {
        CommandAgrees(d, e);
      } else {
        OtherAgrees(d, e);
      }
    } else {
      hide IdentityOf;
      hide SamePayload;
      if SamePayload(d, e) {
        SameKind(d, e);
      }
    }
  }

  /**
   Exact grouping of raw events: two events that are not refused feed the digest the same bytes if and only if their
   scopes agree and they are of one kind whose own fields agree.
   */
  lemma {:induction false} GroupingExact(s: Scope, d: Event, t: Scope, e: Event)
    requires Refusal(s, d).None? && Refusal(t, e).None?
    requires GroupOf(s, d).Good? ==> Addressable(GroupFields(GroupOf(s, d).value))
    requires GroupOf(t, e).Good? ==> Addressable(GroupFields(GroupOf(t, e).value))
    ensures Preimage(s, d) == Preimage(t, e) <==> SameScope(s, t) && SamePayload(d, e)
  {
    hide Refusal;
    hide ScopeOf;
    hide IdentityOf;
    hide SameScope;
    hide SamePayload;
    hide GroupFields;
    hide Encode;
    RefusalExact(s, d);
    RefusalExact(t, e);
    PreimageExact(s, d, t, e);
    ScopeAgrees(s, t);
    PayloadAgrees(d, e);
  }
}
