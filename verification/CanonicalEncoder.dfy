/** The fingerprint as it is computed: fields are fed to an encoder one after another. */
module CanonicalEncoder {
  import opened Text
  import opened Fingerprint
  import FingerprintExact

  /** The fields of an identity have been added, or its error came back. */
  ghost predicate Wrote(i: Checked<Identity>, before: seq<seq<byte>>, after: seq<seq<byte>>, failed: Option<FingerprintError>) {
    if i.Bad? then failed == Some(i.error) else failed == None && after == before + IdentityFields(i.value)
  }

  /** The digest state, kept as the bytes fed to it so far. */
  class CanonicalEncoder {
    var fed: seq<byte>
    ghost var fields: seq<seq<byte>>

    ghost predicate Valid()
      reads this
    {
      fed == Encode(fields)
    }

    constructor ()
      ensures Valid() && fields == []
    {
      fed, fields := [], [];
    }

    method Field(bytes: seq<byte>)
      requires Valid()
      modifies this
      ensures Valid() && fields == old(fields) + [bytes]
    {
      hide LengthPrefix;
      fed := fed + LengthPrefix(|bytes|) + bytes;
      fields := fields + [bytes];
      assert fields[..|fields| - 1] == old(fields);
    }

    method Endpoint(family: Family, address: IpAddr, port: u16)
      requires Valid()
      modifies this
      ensures Valid() && fields == old(fields) + Fingerprint.Endpoint(family, address, port)
    {
      hide Encode;
      hide Utf8;
      hide BigEndian;
      Field(Utf8(FamilyName(family)));
      Field(Octets(address));
      Field(BigEndian(port, 2));
    }

    method InboundEndpoint(command: string, family: Family, address: IpAddr, port: u16)
      requires Valid()
      modifies this
      ensures Valid() && fields == old(fields) + IdentityFields(Listened(command, family, address, port))
      ensures fields == old(fields) + IdentityFields(Accepted(command, family, address, port))
    {
      hide Encode;
      hide Utf8;
      hide Fingerprint.Endpoint;
      Field(Utf8(command));
      Field(Utf8("tcp"));
      Endpoint(family, address, port);
    }

    method FileSemantic(command: string, operation: string, path: string, newPath: Option<string>, replaced: Option<bool>)
      returns (failed: Option<FingerprintError>)
      requires Valid()
      modifies this
      ensures Valid()
      ensures var c := Required("process_command", command);
              if c.Bad? then failed == Some(c.error) && fields == old(fields)
              else
                && failed == None
                && fields == old(fields) + [Utf8(c.value), Utf8(operation), Utf8(path)]
                             + (if newPath.Some? then [Utf8(newPath.value)] else [])
                             + (if replaced.Some? then [[if replaced.value then 1 else 0]] else [])
    {
      hide Encode;
      hide Utf8;
      hide Required;
      var c := Required("process_command", command);
      if c.Bad? {
        return Some(c.error);
      }
      Field(Utf8(c.value));
      Field(Utf8(operation));
      Field(Utf8(path));
      if newPath.Some? {
        Field(Utf8(newPath.value));
      }
      if replaced.Some? {
        Field([if replaced.value then 1 else 0]);
      }
      failed := None;
    }

    method ScopeHeader(scope: Scope) returns (failed: Option<FingerprintError>)
      requires Valid() && fields == []
      modifies this
      ensures Valid()
      ensures var s := ScopeOf(scope);
              if s.Bad? then failed == Some(s.error) else failed == None && fields == ScopeFields(s.value)
    {
      hide Encode;
      hide Utf8;
      hide BigEndian;
      hide Required;
      var namespace := Required("namespace", scope.namespace);
      if namespace.Bad? {
        return Some(namespace.error);
      }
      var kind := Required("workload_kind", scope.workloadKind);
      if kind.Bad? {
        return Some(kind.error);
      }
      var name := Required("workload_name", scope.workloadName);
      if name.Bad? {
        return Some(name.error);
      }
      Field(Utf8(DOMAIN));
      Field(BigEndian(1, 2));
      Field(scope.organization);
      Field(scope.project);
      Field(scope.application);
      Field(scope.cluster);
      Field(Utf8(namespace.value));
      Field(Utf8(kind.value));
      Field(Utf8(name.value));
      failed := None;
    }

    /** The network kinds. */
    method NetworkFields(event: Event) returns (failed: Option<FingerprintError>)
      requires Valid() && (event.payload.NetworkConnect? || event.payload.NetworkListen? || event.payload.NetworkAccept? || event.payload.NetworkDnsQuery? || event.payload.NetworkDnsResponse?)
      modifies this
      ensures Valid() && Wrote(IdentityOf(event), old(fields), fields, failed)
    {
      hide Required;
      hide Encode;
      hide Utf8;
      hide Lower;
      hide SignedBytes;
      hide Fingerprint.Endpoint;
      failed := None;
      match event.payload
      case NetworkConnect(family, address, port, _, _) =>
        var command := Required("process_command", event.command);
        if command.Bad? { return Some(command.error); }
        Field(Utf8(command.value));
        Endpoint(family, address, port);
      case NetworkListen(family, address, port) =>
        var command := Required("process_command", event.command);
        if command.Bad? { return Some(command.error); }
        InboundEndpoint(command.value, family, address, port);
      case NetworkAccept(family, address, port, _, _) =>
        var command := Required("process_command", event.command);
        if command.Bad? { return Some(command.error); }
        InboundEndpoint(command.value, family, address, port);
      case NetworkDnsQuery(name, queryType, _, _) =>
        var command := Required("process_command", event.command);
        if command.Bad? { return Some(command.error); }
        Field(Utf8(command.value));
        Field(Utf8(name));
        Field(Utf8(QueryTypeName(queryType)));
      case NetworkDnsResponse(name, queryType, code, _, _) =>
        var command := Required("process_command", event.command);
        if command.Bad? { return Some(command.error); }
        Field(Utf8(command.value));
        Field(Utf8(name));
        Field(Utf8(QueryTypeName(queryType)));
        Field(Utf8(CodeName(code)));
    }

    /** The file kinds. */
    method FileFields(event: Event) returns (failed: Option<FingerprintError>)
      requires Valid() && (event.payload.FileCreate? || event.payload.FileModify? || event.payload.FileDelete? || event.payload.FileRename?)
      modifies this
      ensures Valid() && Wrote(IdentityOf(event), old(fields), fields, failed)
    {
      hide Required;
      hide Encode;
      hide Utf8;
      hide Lower;
      hide SignedBytes;
      hide Fingerprint.Endpoint;
      failed := None;
      match event.payload
      case FileCreate(path) =>
        failed := FileSemantic(event.command, "create", path, None, None);
      case FileModify(path) =>
        failed := FileSemantic(event.command, "modify", path, None, None);
      case FileDelete(path) =>
        failed := FileSemantic(event.command, "delete", path, None, None);
      case FileRename(path, newPath, replaced) =>
        failed := FileSemantic(event.command, "rename", path, Some(newPath), replaced);
    }

    /** The kinds of endings. */
    method TerminationFields(event: Event) returns (failed: Option<FingerprintError>)
      requires Valid() && (event.payload.ProcessExit? || event.payload.ContainerTermination? || event.payload.ContainerRestart?)
      modifies this
      ensures Valid() && Wrote(IdentityOf(event), old(fields), fields, failed)
    {
      hide Required;
      hide Encode;
      hide Utf8;
      hide Lower;
      hide SignedBytes;
      hide Fingerprint.Endpoint;
      failed := None;
      match event.payload
      case ProcessExit(termination, correlation, _) =>
        var who := if correlation.Observed? then Required("executable", correlation.executable) else Required("process_command", event.command);
        if who.Bad? { return Some(who.error); }
        Field(Utf8(who.value));
        match termination {
          case Exited(status) =>
            Field(Utf8("exited"));
            Field([status]);
          case Signaled(signal, _, _) =>
            Field(Utf8("signaled"));
            Field([signal]);
        }
      case ContainerTermination(_, reason, exitCode) =>
        var container := Required("container_name", event.container);
        if container.Bad? { return Some(container.error); }
        var why := Required("termination_reason", reason);
        if why.Bad? { return Some(why.error); }
        Field(Utf8(container.value));
        Field(Utf8(why.value));
        Field(SignedBytes(exitCode));
      case ContainerRestart(_, _, _) =>
        var container := Required("container_name", event.container);
        if container.Bad? { return Some(container.error); }
        Field(Utf8(container.value));
    }

    /** The payload's fields, from the point where the event kind has been written. */
    method PayloadFields(event: Event) returns (failed: Option<FingerprintError>)
      requires Valid()
      modifies this
      ensures Valid() && Wrote(IdentityOf(event), old(fields), fields, failed)
    {
      hide Required;
      hide Encode;
      hide Utf8;
      hide Lower;
      hide SignedBytes;
      hide Fingerprint.Endpoint;
      failed := None;
      match event.payload
      case ThreadActivityWindow =>
        failed := Some(UnsupportedEventKind);
      case ProcessStart(_) =>
        var command := Required("process_command", event.command);
        if command.Bad? { return Some(command.error); }
        Field(Utf8(command.value));
      case ProcessExec(executable, _) =>
        var e := Required("executable", executable);
        if e.Bad? { return Some(e.error); }
        Field(Utf8(e.value));
      case Syscall(name) =>
        var command := Required("process_command", event.command);
        if command.Bad? { return Some(command.error); }
        var call := Required("syscall_name", name);
        if call.Bad? { return Some(call.error); }
        Field(Utf8(command.value));
        Field(Utf8(Lower(call.value)));
      case NetworkConnect(_, _, _, _, _) =>
        failed := NetworkFields(event);
      case NetworkListen(_, _, _) =>
        failed := NetworkFields(event);
      case NetworkAccept(_, _, _, _, _) =>
        failed := NetworkFields(event);
      case NetworkDnsQuery(_, _, _, _) =>
        failed := NetworkFields(event);
      case NetworkDnsResponse(_, _, _, _, _) =>
        failed := NetworkFields(event);
      case FileCreate(_) =>
        failed := FileFields(event);
      case FileModify(_) =>
        failed := FileFields(event);
      case FileDelete(_) =>
        failed := FileFields(event);
      case FileRename(_, _, _) =>
        failed := FileFields(event);
      case ProcessExit(_, _, _) =>
        failed := TerminationFields(event);
      case ContainerTermination(_, _, _) =>
        failed := TerminationFields(event);
      case ContainerRestart(_, _, _) =>
        failed := TerminationFields(event);
    }
  }

  /** `fingerprint_v1`, with the hash function as a parameter. */
  method FingerprintV1(scope: Scope, event: Event, hash: seq<byte> -> seq<byte>) returns (r: Checked<seq<byte>>)
    ensures var p := Preimage(scope, event);
            r == if p.Bad? then Bad(p.error) else Good(hash(p.value))
  {
    hide ScopeOf;
    hide ScopeFields;
    hide IdentityOf;
    hide IdentityFields;
    hide Encode;
    hide Utf8;
    var encoder := new CanonicalEncoder();
    var failed := encoder.ScopeHeader(scope);
    if failed.Some? {
      return Bad(failed.value);
    }
    encoder.Field(Utf8(EventKind(event.payload)));
    failed := encoder.PayloadFields(event);
    if failed.Some? {
      return Bad(failed.value);
    }
    FingerprintExact.KindIsEventKind(event);
    r := Good(hash(encoder.fed));
  }
}
