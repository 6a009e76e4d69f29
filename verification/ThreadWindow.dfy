/** Thread activity windows and their validation, as the event model defines them. */
module ThreadWindow {
  import opened Sorting
  import opened Text

  const MAX_THREAD_NAME_BYTES := 15
  const MAX_THREAD_NAMES := 64
  const WINDOW_NANOS := 60 * SECOND


  const NIL: Uuid := [0, 0, 0, 0, 0, 0, 0, 0, 0, 0, 0, 0, 0, 0, 0, 0]

  datatype Baseline = Observed | Snapshot | Unavailable

  datatype Gap =
    | KernelLoss | DecodeFailure | AttributionFailure | StateCapacity
    | SnapshotRace | SnapshotPermission | SnapshotTruncated | DeliveryGap

  datatype Generation = Generation(number: nat, epoch: Uuid, startObserved: bool) {
    predicate Valid() { number != 0 && epoch != NIL }
  }

  datatype Process = Process(cgroup: nat, pid: nat, tgid: nat, command: string) {
    predicate Leader() { cgroup != 0 && pid != 0 && pid == tgid }
  }

  datatype NameCount = NameCount(name: string, created: nat, exited: nat, active: nat)

  /** Times are nanoseconds since the Unix epoch. */
  datatype Window = Window(
    id: Uuid, process: Process, generation: Generation, startedAt: int, endedAt: int,
    created: nat, exited: nat, activeAtStart: nat, activeAtEnd: nat, peakActive: nat,
    names: seq<NameCount>, baseline: Baseline, complete: bool, overflow: nat, gaps: seq<Gap>)

  datatype Error = InvalidIdentifier | InvalidBounds | InvalidCounters | InvalidName | NameCapacity | DuplicateGap

  datatype Outcome = Ok | Err(error: Error)

  predicate ValidName(name: string) {
    name != [] && |Utf8(name)| <= MAX_THREAD_NAME_BYTES && forall c :: c in name ==> !IsControl(c)
  }

  function Created(n: NameCount): nat { n.created }
  function Exited(n: NameCount): nat { n.exited }
  function Active(n: NameCount): nat { n.active }

  /** `checked_sum`: the running sum, or nothing once it leaves 64 bits. */
  function CheckedSum(values: seq<NameCount>, f: NameCount -> nat, sum: nat): Option<nat> {
    if values == [] then Some(sum)
    else if sum + f(values[0]) > U64_MAX then None
    else CheckedSum(values[1..], f, sum + f(values[0]))
  }

  function Total(values: seq<NameCount>, f: NameCount -> nat): nat {
    if values == [] then 0 else f(values[0]) + Total(values[1..], f)
  }

  lemma {:induction false} CheckedSumTotal(values: seq<NameCount>, f: NameCount -> nat, sum: nat)
    requires sum <= U64_MAX
    ensures CheckedSum(values, f, sum)
         == if sum + Total(values, f) <= U64_MAX then Some(sum + Total(values, f)) else None
  {
    if values != [] && sum + f(values[0]) <= U64_MAX {
      CheckedSumTotal(values[1..], f, sum + f(values[0]));
    }
  }

  predicate DistinctNames(names: seq<NameCount>) {
    forall i, j :: 0 <= i < j < |names| ==> names[i].name != names[j].name
  }

  predicate ValidNames(names: seq<NameCount>) {
    forall n :: n in names ==> ValidName(n.name)
  }

  function NamesVerdict(names: seq<NameCount>): Outcome {
    if |names| > MAX_THREAD_NAMES + 2 then Err(NameCapacity)
    else if ValidNames(names) && DistinctNames(names) then Ok
    else Err(InvalidName)
  }

  function NamesOf(names: seq<NameCount>): set<string> { set n | n in names :: n.name }

  lemma NamesMore(names: seq<NameCount>, i: nat)
    requires i < |names| && ValidNames(names[..i]) && DistinctNames(names[..i])
    ensures if ValidName(names[i].name) && names[i].name !in NamesOf(names[..i])
            then ValidNames(names[..i + 1]) && DistinctNames(names[..i + 1])
            else !(ValidNames(names) && DistinctNames(names))
    ensures NamesOf(names[..i + 1]) == NamesOf(names[..i]) + {names[i].name}
  {
    var n := names[i];
    assert names[..i + 1] == names[..i] + [n];
    assert n in names;
    if n.name in NamesOf(names[..i]) {
      var m :| m in names[..i] && m.name == n.name;
      var j :| 0 <= j < i && names[j] == m;
    } else {
      assert forall j :: 0 <= j < i ==> names[..i][j] in names[..i];
    }
  }

  /** `validate_names`: the loop inserts every name into a set and stops at the first bad or repeated one. */
  method ValidateNames(names: seq<NameCount>) returns (r: Outcome)
    ensures r == NamesVerdict(names)
  {
    if |names| > MAX_THREAD_NAMES + 2 {
      return Err(NameCapacity);
    }
    var seen: set<string> := {};
    for i := 0 to |names|
      invariant seen == NamesOf(names[..i])
      invariant ValidNames(names[..i]) && DistinctNames(names[..i])
    {
      var n := names[i];
      NamesMore(names, i);
      if !ValidName(n.name) || n.name in seen {
        return Err(InvalidName);
      }
      seen := seen + {n.name};
    }
    assert names[..|names|] == names;
    return Ok;
  }

  // ---------------------------------------------------------------- repeated gap reasons

  function Code(g: Gap): nat {
    match g
    case KernelLoss => 0
    case DecodeFailure => 1
    case AttributionFailure => 2
    case StateCapacity => 3
    case SnapshotRace => 4
    case SnapshotPermission => 5
    case SnapshotTruncated => 6
    case DeliveryGap => 7
  }

  /** The order of `sort_by_key` on the reason codes. */
  predicate CodeLeq(a: Gap, b: Gap) { Code(a) <= Code(b) }

  /** Sorting a copy, dropping neighbours and comparing lengths detects exactly the repeated reasons. */
  lemma {:induction false} GapCheckExact(gaps: seq<Gap>)
    ensures |Dedup(Sort(gaps, CodeLeq))| == |gaps| <==> Distinct(gaps)
  {
    var sorted := Sort(gaps, CodeLeq);
    SortElements(gaps, CodeLeq);
    SortSorted(gaps, CodeLeq);
    DedupLength(sorted, CodeLeq);
    DistinctPermutation(sorted, gaps);
  }

  // ---------------------------------------------------------------- validation

  /** `ThreadActivityWindow::validate`, check by check. */
  function Validate(w: Window): Outcome {
    if !w.generation.Valid() || w.id == NIL || !w.process.Leader() then Err(InvalidIdentifier)
    else if w.endedAt - w.startedAt != WINDOW_NANOS then Err(InvalidBounds)
    else if w.activeAtStart + w.created > U64_MAX then Err(InvalidCounters)
    else
      var expected := w.activeAtStart + w.created;
      if expected < w.exited || expected - w.exited != w.activeAtEnd
         || w.peakActive < Max(w.activeAtStart, w.activeAtEnd) || w.peakActive > expected
      then Err(InvalidCounters)
      else if NamesVerdict(w.names) != Ok then NamesVerdict(w.names)
      else if CheckedSum(w.names, Created, 0) != Some(w.created)
           || CheckedSum(w.names, Exited, 0) != Some(w.exited)
           || CheckedSum(w.names, Active, 0) != Some(w.activeAtEnd)
           || (w.complete && (w.baseline == Unavailable || w.gaps != []))
      then Err(InvalidCounters)
      else if |Dedup(Sort(w.gaps, CodeLeq))| != |w.gaps| then Err(DuplicateGap)
      else Ok
  }

  // ---------------------------------------------------------------- what a valid window is, said without running the checks

  /** The identifiers are there, and the process is named by its leading thread. */
  predicate Identified(w: Window) {
    && w.generation.number != 0 && w.generation.epoch != NIL && w.id != NIL
    && w.process.cgroup != 0 && w.process.pid != 0 && w.process.pid == w.process.tgid
  }

  predicate OneMinute(w: Window) { w.endedAt == w.startedAt + 60 * SECOND }

  /** What was live and what was created is what exited and what is live, and the peak lies between. */
  predicate AddsUp(w: Window) {
    && w.activeAtStart + w.created <= 0xFFFF_FFFF_FFFF_FFFF && w.activeAtStart + w.created == w.exited + w.activeAtEnd
    && w.activeAtStart <= w.peakActive && w.activeAtEnd <= w.peakActive && w.peakActive <= w.activeAtStart + w.created
  }

  predicate ProperName(name: string) { name != [] && |Utf8(name)| <= 15 && forall c :: c in name ==> !IsControl(c) }

  ghost predicate ProperNames(names: seq<NameCount>) {
    (forall n :: n in names ==> ProperName(n.name)) && forall i, j :: 0 <= i < j < |names| ==> names[i].name != names[j].name
  }

  /** The names account for the totals, and a complete baseline is one that is there and has no gap. */
  ghost predicate Accounts(w: Window) {
    && Total(w.names, Created) == w.created && Total(w.names, Exited) == w.exited && Total(w.names, Active) == w.activeAtEnd
    && (w.complete ==> w.baseline != Unavailable && w.gaps == [])
  }

  ghost predicate Coherent(w: Window) {
    Identified(w) && OneMinute(w) && AddsUp(w) && |w.names| <= 66 && ProperNames(w.names) && Accounts(w) && Distinct(w.gaps)
  }

  lemma NamesExact(names: seq<NameCount>)
    ensures ValidNames(names) && DistinctNames(names) <==> ProperNames(names)
  {}

  lemma SumsExact(w: Window)
    requires AddsUp(w)
    ensures (&& CheckedSum(w.names, Created, 0) == Some(w.created) && CheckedSum(w.names, Exited, 0) == Some(w.exited)
             && CheckedSum(w.names, Active, 0) == Some(w.activeAtEnd))
       <==> (Total(w.names, Created) == w.created && Total(w.names, Exited) == w.exited && Total(w.names, Active) == w.activeAtEnd)
  {
    CheckedSumTotal(w.names, Created, 0);
    CheckedSumTotal(w.names, Exited, 0);
    CheckedSumTotal(w.names, Active, 0);
  }

  /** The validator accepts exactly the coherent windows, and names what is wrong with the others in this order. */
  lemma ValidateExact(w: Window)
    ensures Validate(w) == Ok <==> Coherent(w)
    ensures Validate(w) ==
            if !Identified(w) then Err(InvalidIdentifier)
            else if !OneMinute(w) then Err(InvalidBounds)
            else if !AddsUp(w) then Err(InvalidCounters)
            else if |w.names| > 66 then Err(NameCapacity)
            else if !ProperNames(w.names) then Err(InvalidName)
            else if !Accounts(w) then Err(InvalidCounters)
            else if !Distinct(w.gaps) then Err(DuplicateGap)
            else Ok
  {
    hide Distinct;
    hide CheckedSum;
    hide Total;
    NamesExact(w.names);
    hide ValidNames;
    hide DistinctNames;
    hide ProperNames;
    if AddsUp(w) {
      SumsExact(w);
    }
    GapCheckExact(w.gaps);
  }
}
