/**
 The generation-bound token that lets `mode recover` finish an OpenCodex removal
 (`cmd/opencodex-relayctl/main.go`), with the routing witness it is bound to
 (`routing/removal_recovery_witness.go`) and the cleanup record it releases
 (`handoff/removal_journal.go`). The command is one process of a step system: it takes the
 routing writer lock up to three times, and any other writers run in between.
 */
module Recovery {

  import opened Wrappers

  /** A durable file: it may be unreadable or not there. */
  datatype Stored<+T> = Unreadable | Absent | Present(value: T)

  // ----- Durable state ------------------------------------------------------------

  datatype Mode = UnknownMode | Relay | Native
  datatype Backend = Unknown | External | LocalOpenCodex | LocalAppleContainer | NoBackend
  datatype Phase =
    | RelayActive | NativePendingRestart | RelayPendingRestart | BackendPendingRestart
    | Applying | NativeActive | RecoveryRequired

  datatype Routing = Routing(
    generation: nat,
    desiredMode: Mode, appliedMode: Mode,
    desiredBackend: Backend, appliedBackend: Backend,
    phase: Phase,
    bound: string)

  /** Fingerprints of the relay config, the Codex config and the interactive profile. */
  datatype Files = Files(relayConfig: string, codexConfig: string, interactive: string)

  datatype Journal = Journal(
    generation: nat,
    configMutated: bool, originAuthoritative: bool,
    target: Mode, targetBackend: Backend,
    origin: Mode, originBackend: Backend,
    files: Files)

  datatype CleanupPhase = PackageInFlight | PackagePending | PackageVerified | OtherPhase

  /** The removal cleanup record; `rest` stands for the fields recovery does not look at. */
  datatype Record = Record(
    installation: string, fingerprint: string,
    activeExecution: bool, resolution: string,
    recoveryPending: bool,
    phase: CleanupPhase, reconciled: bool,
    released: bool, finalizing: bool,
    rest: string)

  /** `Absent` routing state is the legacy installation; `maintenance` covers an unreadable one. */
  datatype Disk = Disk(
    routing: Stored<Routing>, journal: Stored<Journal>, files: Option<Files>, maintenance: bool,
    record: Stored<Record>)

  // ----- The cleanup record ---------------------------------------------------------

  /** `RemovalRoutingGate` denies. */
  predicate RemovalGateClosed(record: Stored<Record>) {
    record.Unreadable? ||
    (record.Present? &&
     var r := record.value;
     || r.activeExecution || r.resolution != "" || r.recoveryPending
     || r.phase == PackageInFlight || (r.phase == PackagePending && r.reconciled)
     || (r.phase == PackageVerified && !r.released) || r.finalizing)
  }

  /** `RemovalRoutingGateReleasable`. */
  predicate Releasable(r: Record) {
    !r.activeExecution && r.resolution == "" && (r.recoveryPending || (r.phase == PackageVerified && !r.released))
  }

  /** `removalRoutingRecoveryRecordEligible`. */
  predicate Eligible(r: Record) {
    && !r.activeExecution && r.resolution == "" && !r.finalizing
    && (r.recoveryPending || (r.phase == PackageVerified && !r.released))
  }

  /** What `ReleaseRemovalRoutingGateForRecovery` writes for a record it accepts. */
  function ReleasedRecord(r: Record): Option<Record> {
    if r.activeExecution || r.resolution != "" || r.finalizing then None
    else if r.recoveryPending then Some(r.(recoveryPending := false))
    else if r.phase != PackageVerified then None
    else Some(r.(released := true))
  }

  // ----- The routing witness ----------------------------------------------------------

  datatype Kind = Parked | StableWithJournal | Stable
  datatype Snapshot = Snapshot(routing: Routing, journal: Option<Journal>, files: Files, kind: Kind, target: Backend)

  predicate NonLocal(b: Backend) { b != Unknown && b != LocalOpenCodex && b != LocalAppleContainer }

  /** `nonLocalRecoveryTarget`. */
  predicate NonLocalTarget(r: Routing) {
    r.generation > 0 && NonLocal(r.desiredBackend) && NonLocal(r.appliedBackend)
  }

  /** `stableNonLocalRecoveryCommit`. */
  predicate StableCommit(r: Routing) {
    && (r.phase == RelayActive || r.phase == NativeActive)
    && NonLocalTarget(r) && r.desiredMode == r.appliedMode && r.desiredBackend == r.appliedBackend
  }

  predicate NonLocalMove(j: Journal) {
    NonLocal(j.targetBackend) && NonLocal(j.originBackend) && j.targetBackend != j.originBackend
  }

  predicate StableJournal(r: Routing, j: Journal) {
    && StableCommit(r) && j.configMutated && !j.originAuthoritative && r.generation == j.generation + 1
    && r.desiredMode == j.target && r.appliedMode == j.target
    && r.desiredBackend == j.targetBackend && r.appliedBackend == j.targetBackend && NonLocalMove(j)
  }

  predicate ParkedJournal(r: Routing, j: Journal) {
    && r.phase == RecoveryRequired && NonLocalTarget(r) && !j.originAuthoritative && r.generation == j.generation + 1
    && r.desiredMode == j.target && r.desiredBackend == j.targetBackend
    && r.appliedMode == j.origin && r.appliedBackend == j.originBackend && NonLocalMove(j)
  }

  /** `classifyRemovalRecoveryWitness`; `observe` is the routing the managed files alone imply. */
  function Classify(r: Routing, journal: Option<Journal>, files: Files, observe: Files -> Option<Routing>)
    : Option<(Kind, Backend)>
  {
    if journal.Some? then
      if StableJournal(r, journal.value) then Some((StableWithJournal, journal.value.targetBackend))
      else if ParkedJournal(r, journal.value) then Some((Parked, journal.value.targetBackend))
      else None
    else if StableCommit(r) then Some((Stable, r.appliedBackend))
    else if r.phase != RecoveryRequired || !NonLocalTarget(r) then None
    else
      var observed := observe(files);
      if observed.None? || !StableCommit(observed.value) then None else Some((Parked, observed.value.desiredBackend))
  }

  /** `captureRemovalRecoveryWitnessLocked`. */
  function Capture(d: Disk, bound: string, observe: Files -> Option<Routing>): Option<Snapshot> {
    if !d.routing.Present? || d.routing.value.bound != bound || d.journal.Unreadable? || d.files.None? then None
    else
      var journal := if d.journal.Present? then Some(d.journal.value) else None;
      if journal.Some? && journal.value.files != d.files.value then None
      else
        var kind := Classify(d.routing.value, journal, d.files.value, observe);
        if kind.None? then None
        else Some(Snapshot(d.routing.value, journal, d.files.value, kind.value.0, kind.value.1))
  }

  /** `matchesRecoveryInputsLocked`: the durable components are those of the witness. */
  predicate SameInputs(w: Snapshot, d: Disk) {
    && d.routing == Present(w.routing)
    && d.journal == (if w.journal.Some? then Present(w.journal.value) else Absent)
    && d.files == Some(w.files)
  }

  // ----- The command -------------------------------------------------------------------

  datatype Input = Input(
    installation: string, fingerprint: string, expected: nat, complete: bool, desktopExited: bool,
    bound: string, observe: Files -> Option<Routing>)

  /** `removalRoutingRecoveryPreparation`, with the generation its gate allows. */
  datatype Preparation = Preparation(record: Record, allowed: nat, captured: Snapshot, already: bool)

  /** `matches`. */
  predicate Matches(record: Record, i: Input, d: Disk) {
    && d.record.Present? && Eligible(d.record.value)
    && d.record.value.installation == i.installation && d.record.value.fingerprint == i.fingerprint
    && d.record.value == record
  }

  /** `routingGenerationMatches`. */
  predicate GenerationMatches(allowed: nat, d: Disk) {
    && allowed != 0 && d.routing.Present? && !d.journal.Unreadable? && !d.maintenance
    && d.routing.value.generation == allowed
  }

  /** `recoveryGate` of an active preparation lets recovery pass. */
  predicate GateOpen(p: Preparation, i: Input, d: Disk) {
    Matches(p.record, i, d) && GenerationMatches(p.allowed, d)
  }

  /** `safeRemovalRoutingRecoveryState` with an active phase, as the release demands it. */
  predicate SafeActive(r: Routing) {
    && r.generation != 0
    && r.desiredBackend != Unknown && r.desiredBackend != LocalOpenCodex
    && r.appliedBackend != Unknown && r.appliedBackend != LocalOpenCodex
    && (r.phase == RelayActive || r.phase == NativeActive)
    && r.desiredMode == r.appliedMode && r.desiredBackend == r.appliedBackend
  }

  /** The generation the release insists on, when there is one. */
  function Committed(p: Preparation, i: Input): Option<nat> {
    if p.already then Some(i.expected) else if p.allowed <= i.expected then None else Some(p.allowed)
  }

  /** Everything `releaseRecoveredRemovalRoutingToken` reads from disk before the release. */
  predicate Proven(p: Preparation, i: Input, d: Disk) {
    && Capture(d, i.bound, i.observe) == Some(p.captured) && p.captured.kind == Stable
    && d.routing.Present? && d.routing.value.bound == i.bound
    && d.journal.Absent? && !d.maintenance
    && Committed(p, i) == Some(d.routing.value.generation)
    && SafeActive(d.routing.value)
  }

  datatype Pc =
    | Start
    | PrepLocking(record: Record)
    | PrepCapturing(record: Record)
    | Ready(prep: Preparation)
    | RecLocking(prep: Preparation)
    | Recovering(prep: Preparation)
    | Recovered(prep: Preparation, reported: nat)
    | RelLocking(prep: Preparation)
    | Validating(prep: Preparation)
    | Matching(prep: Preparation)
    | Taking(prep: Preparation)
    | Putting(prep: Preparation, taken: Record)
    | Closing(prep: Preparation)
    | Finished
    | Failed

  datatype Holder = Free | Us | Other

  /** What was durable, and who held the lock, when the record was released. */
  datatype Evidence = Evidence(holder: Holder, disk: Disk, prep: Preparation, since: nat)

  /** `since` counts the other writers' routing writes since the witness was last bound. */
  datatype State = State(pc: Pc, holder: Holder, disk: Disk, evidence: Option<Evidence>, since: nat)

  /** What the outside decides in one step of the command. */
  datatype Choice = Choice(
    ok: bool,             // the lock, the status, the ownership proof or the write succeeds
    left: Disk,           // what the recovery leaves on disk
    renamed: bool,        // a failing record write fails only after the record was replaced
    rebinds: bool,        // the recovery path rebinds the witness before it returns
    reported: nat)        // the generation in the status the recovery returns

  function Fail(s: State): State {
    s.(pc := Failed, holder := if s.holder == Us then Free else s.holder)
  }

  function TakeLock(s: State, c: Choice, pc: Pc): State {
    if !c.ok then Fail(s) else if s.holder == Free then s.(holder := Us, pc := pc) else s
  }

  /**
   One step of the command; holding the lock, its reads see one disk. The first step makes three
   reads of the record without the lock; what they found is compared again under it, so that
   anything that changes in between only makes the command fail. Without a closed removal gate
   there is no token, and what follows is an ordinary recovery outside this system.
   */
  function CommandStep(s: State, i: Input, c: Choice): State {
    match s.pc
    case Start =>
      if !RemovalGateClosed(s.disk.record) || !s.disk.record.Present? then Fail(s)
      else
        var r := s.disk.record.value;
        if Releasable(r) && Eligible(r) && i.complete && i.expected != 0
           && r.installation == i.installation && r.fingerprint == i.fingerprint && c.ok
        then s.(pc := PrepLocking(r)) else Fail(s)
    case PrepLocking(r) => TakeLock(s, c, PrepCapturing(r))
    case PrepCapturing(r) =>
      var w := Capture(s.disk, i.bound, i.observe);
      if !Matches(r, i, s.disk) || w.None? || w.value.routing.generation != i.expected then Fail(s)
      else s.(pc := Ready(Preparation(r, i.expected, w.value, w.value.kind == Stable)), holder := Free, since := 0)
    case Ready(p) =>
      if !i.desktopExited then Fail(s) else if p.already then s.(pc := RelLocking(p)) else s.(pc := RecLocking(p))
    case RecLocking(p) => TakeLock(s, c, Recovering(p))
    case Recovering(p) => RecoverStep(s, p, i, c)
    case Recovered(p, reported) =>
      if reported <= i.expected || p.captured.routing.generation != reported || p.captured.kind != Stable then Fail(s)
      else s.(pc := RelLocking(p.(allowed := reported)))
    case RelLocking(p) => TakeLock(s, c, Validating(p))
    case Validating(p) => if Proven(p, i, s.disk) && c.ok then s.(pc := Matching(p)) else Fail(s)
    case Matching(p) => if Matches(p.record, i, s.disk) then s.(pc := Taking(p)) else Fail(s)
    case Taking(p) =>
      if s.disk.record.Present? && ReleasedRecord(s.disk.record.value).Some? then
        s.(pc := Putting(p, s.disk.record.value))
      else Fail(s)
    case Putting(p, taken) =>
      if ReleasedRecord(taken).None? || (!c.ok && !c.renamed) then Fail(s)
      else
        var t := s.(disk := s.disk.(record := Present(ReleasedRecord(taken).value)),
                    evidence := Some(Evidence(s.holder, s.disk, p, s.since)));
        if c.ok then t.(pc := Closing(p)) else Fail(t)
    case Closing(p) => s.(pc := Finished, holder := Free)
    case Finished => s
    case Failed => s
  }

  /** `Controller.Recover` under the lock, bound to the witness. */
  function RecoverStep(s: State, p: Preparation, i: Input, c: Choice): State {
    if s.disk.maintenance || !SameInputs(p.captured, s.disk) || !GateOpen(p, i, s.disk) then Fail(s)
    else
      var t := s.(disk := c.left.(record := s.disk.record));
      if !c.ok then Fail(t)
      else if !c.rebinds then t.(pc := Recovered(p, c.reported), holder := Free)
      else
        var w := Capture(t.disk, i.bound, i.observe);
        if w.None? || w.value.kind != Stable || w.value.journal.Some? then Fail(t)
        else t.(pc := Recovered(p.(captured := w.value), c.reported), holder := Free, since := 0)
  }

  datatype Event =
    | Command(choice: Choice)
    | OtherLocks
    | OtherUnlocks
    | OtherRoutes(routing: Routing, journal: Stored<Journal>, files: Option<Files>, maintenance: bool)
    | OtherRecords(record: Stored<Record>)

  /** Other writers act only while they hold the lock, and routing writes raise the generation. */
  predicate Enabled(s: State, e: Event) {
    match e
    case Command(_) => true
    case OtherLocks => s.holder == Free
    case OtherUnlocks => s.holder == Other
    case OtherRoutes(r, _, _, _) => s.holder == Other &&
      (s.disk.routing.Present? ==> r.generation > s.disk.routing.value.generation)
    case OtherRecords(_) => s.holder == Other
  }

  function Step(s: State, i: Input, e: Event): State {
    match e
    case Command(c) => CommandStep(s, i, c)
    case OtherLocks => s.(holder := Other)
    case OtherUnlocks => s.(holder := Free)
    case OtherRoutes(r, j, f, m) =>
      s.(disk := s.disk.(routing := Present(r), journal := j, files := f, maintenance := m), since := s.since + 1)
    case OtherRecords(r) => s.(disk := s.disk.(record := r))
  }

  ghost predicate RunOk(s: State, i: Input, events: seq<Event>)
    decreases |events|
  {
    events == [] || (Enabled(s, events[0]) && RunOk(Step(s, i, events[0]), i, events[1..]))
  }

  function Run(s: State, i: Input, events: seq<Event>): State
    decreases |events|
  {
    if events == [] then s else Run(Step(s, i, events[0]), i, events[1..])
  }

  predicate Initial(s: State) {
    s.pc == Start && s.holder != Us && s.evidence.None?
  }
}
