/** Group fingerprints: which bytes two events feed to the digest, and when those bytes are equal. */
module Fingerprint {
  import opened Text
  import opened DnsCodes

  type u16 = n: int | 0 <= n < 0x1_0000
  type i32 = n: int | -0x8000_0000 <= n < 0x8000_0000
  type Octets4 = b: seq<byte> | |b| == 4 witness [0, 0, 0, 0]
  type Octets16 = b: seq<byte> | |b| == 16 witness [0, 0, 0, 0, 0, 0, 0, 0, 0, 0, 0, 0, 0, 0, 0, 0]

  datatype Family = Ipv4 | Ipv6
  datatype IpAddr = V4(octets4: Octets4) | V6(octets16: Octets16)
  datatype Termination = Exited(status: byte) | Signaled(signal: byte, signalName: string, coreDump: bool)
  datatype Correlation = Observed(generation: nat, execEvent: Uuid, executable: string) | Unresolved

  datatype Payload =
    | ProcessStart(startObserved: bool)
    | ThreadActivityWindow
    | ProcessExec(executable: string, parent: Option<string>)
    | Syscall(name: string)
    | NetworkConnect(family: Family, address: IpAddr, port: u16, errno: Option<u16>, dnsNames: seq<string>)
    | NetworkListen(family: Family, address: IpAddr, port: u16)
    | NetworkAccept(family: Family, address: IpAddr, port: u16, remote: IpAddr, remotePort: u16)
    | NetworkDnsQuery(name: string, queryType: QueryType, overTcp: bool, egress: bool)
    | NetworkDnsResponse(name: string, queryType: QueryType, code: ResponseCode, overTcp: bool, egress: bool)
    | FileCreate(path: string)
    | FileModify(path: string)
    | FileDelete(path: string)
    | FileRename(path: string, newPath: string, replaced: Option<bool>)
    | ProcessExit(termination: Termination, correlation: Correlation, rawStatus: i32)
    | ContainerTermination(runtimeId: string, reason: string, exitCode: i32)
    | ContainerRestart(runtimeId: string, restartCount: nat, restartDelta: nat)

  datatype Event = Event(command: string, container: string, payload: Payload)

  datatype Scope = Scope(organization: Uuid, project: Uuid, application: Uuid, cluster: Uuid, namespace: string, workloadKind: string, workloadName: string)

  datatype FingerprintError = EmptyField(name: string) | UnsupportedEventKind

  datatype Checked<+T> = Good(value: T) | Bad(error: FingerprintError)

  // ---------------------------------------------------------------- normalisation

  predicate Trimmable(c: char) { c == '\0' || IsWhitespace(c) }

  function TrimStart(s: string): string { if s != [] && Trimmable(s[0]) then TrimStart(s[1..]) else s }

  function TrimEnd(s: string): string { if s != [] && Trimmable(s[|s| - 1]) then TrimEnd(s[..|s| - 1]) else s }

  function Trim(s: string): string { TrimEnd(TrimStart(s)) }

  function Required(name: string, value: string): Checked<string> {
    if Trim(value) == [] then Bad(EmptyField(name)) else Good(Trim(value))
  }

  function LowerChar(c: char): char { if 'A' <= c <= 'Z' then c - 'A' + 'a' else c }

  function Lower(s: string): (r: string)
    ensures |r| == |s| && forall i :: 0 <= i < |s| ==> r[i] == LowerChar(s[i])
  {
    if s == [] then [] else [LowerChar(s[0])] + Lower(s[1..])
  }

  /** How a process ended, without the words around it. */
  datatype Ending = ByExit(status: byte) | BySignal(signal: byte)

  datatype FileOperation = Create | Modify | Delete

  /** What identifies an event within its scope: one form per event kind, with normalised fields. */
  datatype Identity =
    | Started(command: string)
    | Executed(executable: string)
    | Called(command: string, syscall: string)
    | Connected(command: string, family: Family, address: IpAddr, port: u16)
    | Listened(command: string, family: Family, address: IpAddr, port: u16)
    | Accepted(command: string, family: Family, address: IpAddr, port: u16)
    | Queried(command: string, name: string, queryType: QueryType)
    | Answered(command: string, name: string, queryType: QueryType, code: ResponseCode)
    | Touched(operation: FileOperation, command: string, path: string)
    | Renamed(command: string, path: string, newPath: string, replaced: Option<bool>)
    | Ended(who: string, ending: Ending)
    | Terminated(container: string, reason: string, exitCode: i32)
    | Restarted(container: string)

  function EndingOf(t: Termination): Ending {
    match t case Exited(status) => ByExit(status) case Signaled(signal, _, _) => BySignal(signal)
  }

  function WithCommand(event: Event, make: string -> Identity): Checked<Identity> {
    var command := Required("process_command", event.command);
    if command.Bad? then Bad(command.error) else Good(make(command.value))
  }

  function IdentityOf(event: Event): Checked<Identity> {
    match event.payload
    case ThreadActivityWindow => Bad(UnsupportedEventKind)
    case ProcessStart(_) => WithCommand(event, command => Started(command))
    case ProcessExec(executable, _) =>
      var e := Required("executable", executable);
      if e.Bad? then Bad(e.error) else Good(Executed(e.value))
    case Syscall(name) =>
      var command, call := Required("process_command", event.command), Required("syscall_name", name);
      if command.Bad? then Bad(command.error) else if call.Bad? then Bad(call.error)
      else Good(Called(command.value, Lower(call.value)))
    case NetworkConnect(family, address, port, _, _) => WithCommand(event, command => Connected(command, family, address, port))
    case NetworkListen(family, address, port) => WithCommand(event, command => Listened(command, family, address, port))
    case NetworkAccept(family, address, port, _, _) => WithCommand(event, command => Accepted(command, family, address, port))
    case NetworkDnsQuery(name, queryType, _, _) => WithCommand(event, command => Queried(command, name, queryType))
    case NetworkDnsResponse(name, queryType, code, _, _) => WithCommand(event, command => Answered(command, name, queryType, code))
    case FileCreate(path) => WithCommand(event, command => Touched(Create, command, path))
    case FileModify(path) => WithCommand(event, command => Touched(Modify, command, path))
    case FileDelete(path) => WithCommand(event, command => Touched(Delete, command, path))
    case FileRename(path, newPath, replaced) => WithCommand(event, command => Renamed(command, path, newPath, replaced))
    case ProcessExit(termination, correlation, _) =>
      var who := if correlation.Observed? then Required("executable", correlation.executable) else Required("process_command", event.command);
      if who.Bad? then Bad(who.error) else Good(Ended(who.value, EndingOf(termination)))
    case ContainerTermination(_, reason, exitCode) =>
      var container, why := Required("container_name", event.container), Required("termination_reason", reason);
      if container.Bad? then Bad(container.error) else if why.Bad? then Bad(why.error)
      else Good(Terminated(container.value, why.value, exitCode))
    case ContainerRestart(_, _, _) =>
      var container := Required("container_name", event.container);
      if container.Bad? then Bad(container.error) else Good(Restarted(container.value))
  }

  /** A scope with its three names normalised. */
  function ScopeOf(scope: Scope): Checked<Scope> {
    var namespace, kind, name :=
      Required("namespace", scope.namespace), Required("workload_kind", scope.workloadKind), Required("workload_name", scope.workloadName);
    if namespace.Bad? then Bad(namespace.error) else if kind.Bad? then Bad(kind.error) else if name.Bad? then Bad(name.error)
    else Good(scope.(namespace := namespace.value, workloadKind := kind.value, workloadName := name.value))
  }

  /** What a group is: a normalised scope and an identity. */
  datatype Group = Group(scope: Scope, identity: Identity)

  function GroupOf(scope: Scope, event: Event): Checked<Group> {
    var s := ScopeOf(scope);
    if s.Bad? then Bad(s.error)
    else
      var i := IdentityOf(event);
      if i.Bad? then Bad(i.error) else Good(Group(s.value, i.value))
  }

  // ---------------------------------------------------------------- the fields fed to the digest

  function EventKind(p: Payload): string {
    match p
    case ProcessStart(_) => "process.start"
    case ThreadActivityWindow => "thread.activity.window"
    case ProcessExec(_, _) => "process.exec"
    case Syscall(_) => "syscall"
    case NetworkConnect(_, _, _, _, _) => "network.connect"
    case NetworkListen(_, _, _) => "network.listen"
    case NetworkAccept(_, _, _, _, _) => "network.accept"
    case NetworkDnsQuery(_, _, _, _) => "network.dns.query"
    case NetworkDnsResponse(_, _, _, _, _) => "network.dns.response"
    case FileCreate(_) => "file.create"
    case FileModify(_) => "file.modify"
    case FileDelete(_) => "file.delete"
    case FileRename(_, _, _) => "file.rename"
    case ProcessExit(_, _, _) => "process.exit"
    case ContainerTermination(_, _, _) => "container.terminated"
    case ContainerRestart(_, _, _) => "container.restart"
  }

  function KindOf(i: Identity): string {
    match i
    case Started(_) => "process.start"
    case Executed(_) => "process.exec"
    case Called(_, _) => "syscall"
    case Connected(_, _, _, _) => "network.connect"
    case Listened(_, _, _, _) => "network.listen"
    case Accepted(_, _, _, _) => "network.accept"
    case Queried(_, _, _) => "network.dns.query"
    case Answered(_, _, _, _) => "network.dns.response"
    case Touched(Create, _, _) => "file.create"
    case Touched(Modify, _, _) => "file.modify"
    case Touched(Delete, _, _) => "file.delete"
    case Renamed(_, _, _, _) => "file.rename"
    case Ended(_, _) => "process.exit"
    case Terminated(_, _, _) => "container.terminated"
    case Restarted(_) => "container.restart"
  }

  function FamilyName(f: Family): string { match f case Ipv4 => "ipv4" case Ipv6 => "ipv6" }

  function QueryTypeName(q: QueryType): string { match q case A => "A" case Aaaa => "Aaaa" }

  function CodeName(c: ResponseCode): string {
    match c
    case NoError => "NoError"
    case FormErr => "FormErr"
    case ServFail => "ServFail"
    case NxDomain => "NxDomain"
    case NotImp => "NotImp"
    case Refused => "Refused"
  }

  function OperationName(o: FileOperation): string {
    match o case Create => "create" case Modify => "modify" case Delete => "delete"
  }

  function Octets(a: IpAddr): seq<byte> { match a case V4(o) => o case V6(o) => o }

  /** Two's complement, most significant byte first. */
  function SignedBytes(n: i32): seq<byte> { BigEndian(if n < 0 then n + 0x1_0000_0000 else n, 4) }

  function Endpoint(family: Family, address: IpAddr, port: u16): seq<seq<byte>> {
    [Utf8(FamilyName(family)), Octets(address), BigEndian(port, 2)]
  }

  function IdentityFields(i: Identity): seq<seq<byte>> {
    match i
    case Started(command) => [Utf8(command)]
    case Executed(executable) => [Utf8(executable)]
    case Called(command, syscall) => [Utf8(command), Utf8(syscall)]
    case Connected(command, family, address, port) => [Utf8(command)] + Endpoint(family, address, port)
    case Listened(command, family, address, port) => [Utf8(command), Utf8("tcp")] + Endpoint(family, address, port)
    case Accepted(command, family, address, port) => [Utf8(command), Utf8("tcp")] + Endpoint(family, address, port)
    case Queried(command, name, queryType) => [Utf8(command), Utf8(name), Utf8(QueryTypeName(queryType))]
    case Answered(command, name, queryType, code) =>
      [Utf8(command), Utf8(name), Utf8(QueryTypeName(queryType)), Utf8(CodeName(code))]
    case Touched(operation, command, path) => [Utf8(command), Utf8(OperationName(operation)), Utf8(path)]
    case Renamed(command, path, newPath, replaced) =>
      [Utf8(command), Utf8("rename"), Utf8(path), Utf8(newPath)]
      + (match replaced case None => [] case Some(r) => [[if r then 1 else 0]])
    case Ended(who, ByExit(status)) => [Utf8(who), Utf8("exited"), [status]]
    case Ended(who, BySignal(signal)) => [Utf8(who), Utf8("signaled"), [signal]]
    case Terminated(container, reason, exitCode) => [Utf8(container), Utf8(reason), SignedBytes(exitCode)]
    case Restarted(container) => [Utf8(container)]
  }

  const DOMAIN: string := "okoscope.runtime-event-group"

  function ScopeFields(s: Scope): seq<seq<byte>> {
    [Utf8(DOMAIN), BigEndian(1, 2), s.organization, s.project, s.application, s.cluster,
     Utf8(s.namespace), Utf8(s.workloadKind), Utf8(s.workloadName)]
  }

  function GroupFields(g: Group): seq<seq<byte>> {
    ScopeFields(g.scope) + [Utf8(KindOf(g.identity))] + IdentityFields(g.identity)
  }

  function LengthPrefix(n: nat): (r: seq<byte>)
    ensures |r| == 8
  {
    BigEndian(if n <= U64_MAX then n else U64_MAX, 8)
  }

  /** Each field goes in behind its length in eight bytes. */
  function Encode(fields: seq<seq<byte>>): seq<byte> {
    if fields == [] then []
    else Encode(fields[..|fields| - 1]) + LengthPrefix(|fields[|fields| - 1]|) + fields[|fields| - 1]
  }

  /** No field is longer than memory allows. */
  predicate Addressable(fields: seq<seq<byte>>) { forall f :: f in fields ==> |f| <= U64_MAX }

  /** The digest's input for an event. */
  function Preimage(scope: Scope, event: Event): Checked<seq<byte>> {
    var g := GroupOf(scope, event);
    if g.Bad? then Bad(g.error) else Good(Encode(GroupFields(g.value)))
  }
}
