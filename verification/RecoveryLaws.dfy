/**
 Over every interleaving of the recovery command with other lock-holding writers: the cleanup
 record is released only under the lock, only for the record that was prepared, and only at the
 routing generation the command committed or, when already recovered, captured.
 */
module RecoveryLaws {

  import opened Recovery
  import opened Wrappers

  // ----- The gate -------------------------------------------------------------------

  /** The record the command was asked to recover for. */
  predicate Chosen(r: Record, i: Input) {
    Eligible(r) && r.installation == i.installation && r.fingerprint == i.fingerprint && i.expected != 0
  }

  /** A preparation as the command makes it. */
  predicate Prepared(p: Preparation, i: Input) { Chosen(p.record, i) }

  /** The gate is open exactly for the prepared record at the allowed generation. */
  lemma {:induction false} GateIsExact(p: Preparation, i: Input, d: Disk)
    requires Prepared(p, i)
    ensures GateOpen(p, i, d) <==>
              && d.record == Present(p.record)
              && p.allowed != 0 && d.routing.Present? && d.routing.value.generation == p.allowed
              && !d.journal.Unreadable? && !d.maintenance
  {
    hide Eligible;
    assert d.record == Present(p.record) <==> d.record.Present? && d.record.value == p.record;
  }

  /**
   Releasing an eligible record changes it, so the capability revokes itself. The ordinary removal
   gate opens with it except where one release clears a pending recovery and another cause stays.
   */
  lemma {:induction false} ReleaseRevokes(p: Preparation, i: Input, d: Disk)
    requires Prepared(p, i) && ReleasedRecord(p.record).Some?
    ensures !GateOpen(p, i, d.(record := Present(ReleasedRecord(p.record).value)))
    ensures RemovalGateClosed(Present(ReleasedRecord(p.record).value)) <==>
              p.record.recoveryPending &&
              (p.record.phase == PackageInFlight || (p.record.phase == PackagePending && p.record.reconciled)
               || (p.record.phase == PackageVerified && !p.record.released))
  {
    var r := ReleasedRecord(p.record).value;
    assert r.recoveryPending != p.record.recoveryPending || r.released != p.record.released;
  }

  // ----- The invariant -----------------------------------------------------------------

  predicate Holding(pc: Pc) {
    pc.PrepCapturing? || pc.Recovering? || pc.Validating? || pc.Matching? || pc.Taking? || pc.Putting? || pc.Closing?
  }

  predicate HasPrep(pc: Pc) {
    !(pc.Start? || pc.PrepLocking? || pc.PrepCapturing? || pc.Finished? || pc.Failed?)
  }

  /** Before the recovery: bound to the captured generation. */
  predicate Before(p: Preparation, i: Input) {
    p.allowed == i.expected && p.captured.routing.generation == i.expected && (p.already <==> p.captured.kind == Stable)
  }

  /** From the release on: bound to a stable snapshot at the committed generation. */
  predicate Bound(p: Preparation, i: Input) {
    && p.captured.kind == Stable && p.allowed == p.captured.routing.generation
    && (if p.already then p.allowed == i.expected else p.allowed > i.expected)
  }

  predicate PrepInv(pc: Pc, i: Input)
    requires HasPrep(pc)
  {
    && Prepared(pc.prep, i)
    && (pc.Ready? ==> Before(pc.prep, i))
    && (pc.RecLocking? || pc.Recovering? ==> Before(pc.prep, i) && !pc.prep.already)
    && (pc.Recovered? ==> !pc.prep.already)
    && (!pc.Ready? && !pc.RecLocking? && !pc.Recovering? && !pc.Recovered? ==> Bound(pc.prep, i))
  }

  /** Every write by another writer since binding shows as a higher generation. */
  predicate Traced(captured: Snapshot, d: Disk, since: nat) {
    && d.routing.Present?
    && (since == 0 ==> d.routing.value == captured.routing)
    && (since > 0 ==> d.routing.value.generation > captured.routing.generation)
  }

  /** Only a recovery that did not rebind, and is about to fail, loses the trace. */
  predicate TraceInv(s: State, i: Input) {
    (HasPrep(s.pc) && (s.pc.Recovered? ==> s.pc.prep.captured.routing.generation != i.expected)) ==>
      Traced(s.pc.prep.captured, s.disk, s.since)
  }

  predicate ReleaseInv(s: State, i: Input) {
    && (s.pc.Matching? || s.pc.Taking? || s.pc.Putting? ==> Proven(s.pc.prep, i, s.disk))
    && (s.pc.Taking? || s.pc.Putting? ==> Matches(s.pc.prep.record, i, s.disk))
    && (s.pc.Putting? ==> s.pc.taken == s.pc.prep.record)
  }

  predicate EvidenceInv(s: State, i: Input) {
    && (s.pc.Closing? || s.pc.Finished? ==> s.evidence.Some?)
    && (s.evidence.Some? ==> (s.pc.Closing? || s.pc.Finished? || s.pc.Failed?) && Justified(s.evidence.value, i))
  }

  predicate Justified(e: Evidence, i: Input) {
    && e.holder == Us && Prepared(e.prep, i) && Bound(e.prep, i)
    && e.disk.record == Present(e.prep.record) && Proven(e.prep, i, e.disk)
    && e.since == 0
  }

  predicate Inv(s: State, i: Input) {
    && (s.holder == Us <==> Holding(s.pc))
    && (s.pc.PrepLocking? || s.pc.PrepCapturing? ==> Chosen(s.pc.record, i))
    && (HasPrep(s.pc) ==> PrepInv(s.pc, i))
    && TraceInv(s, i) && ReleaseInv(s, i) && EvidenceInv(s, i)
  }

  lemma {:induction false} CaptureReads(d: Disk, i: Input)
    ensures var w := Capture(d, i.bound, i.observe);
            w.Some? ==> d.routing == Present(w.value.routing) && d.files == Some(w.value.files)
  {
    hide Classify;
  }

  lemma {:induction false} OthersKeepInv(s: State, i: Input, e: Event)
    requires Inv(s, i) && Enabled(s, e) && !e.Command?
    ensures Inv(Step(s, i, e), i)
  {
    hide Eligible, Proven, Matches, PrepInv;
  }

  lemma {:induction false} PrepareKeepsInv(s: State, i: Input, c: Choice)
    requires Inv(s, i) && (s.pc.Start? || s.pc.PrepLocking? || s.pc.PrepCapturing?)
    ensures Inv(CommandStep(s, i, c), i)
  {
    hide Eligible, Proven, Capture, RemovalGateClosed, Releasable;
    CaptureReads(s.disk, i);
  }

  lemma {:induction false} RecoverKeepsInv(s: State, i: Input, c: Choice)
    requires Inv(s, i) && (s.pc.Ready? || s.pc.RecLocking? || s.pc.Recovering? || s.pc.Recovered?)
    ensures Inv(CommandStep(s, i, c), i)
  {
    hide Eligible, Proven, Capture, GateOpen, SameInputs;
    CaptureReads(c.left.(record := s.disk.record), i);
  }

  lemma {:induction false} ReleaseKeepsInv(s: State, i: Input, c: Choice)
    requires Inv(s, i) && !(s.pc.Start? || s.pc.PrepLocking? || s.pc.PrepCapturing?)
    requires !(s.pc.Ready? || s.pc.RecLocking? || s.pc.Recovering? || s.pc.Recovered?)
    ensures Inv(CommandStep(s, i, c), i)
  {
    hide Eligible, Capture, SafeActive;
    CaptureReads(s.disk, i);
  }

  lemma {:induction false} StepKeepsInv(s: State, i: Input, e: Event)
    requires Inv(s, i) && Enabled(s, e)
    ensures Inv(Step(s, i, e), i)
  {
    hide Inv, CommandStep, Enabled;
    match e
    case Command(c) =>
      if s.pc.Start? || s.pc.PrepLocking? || s.pc.PrepCapturing? {
        PrepareKeepsInv(s, i, c);
      } else if s.pc.Ready? || s.pc.RecLocking? || s.pc.Recovering? || s.pc.Recovered? {
        RecoverKeepsInv(s, i, c);
      } else {
        ReleaseKeepsInv(s, i, c);
      }
    case OtherLocks => OthersKeepInv(s, i, e);
    case OtherUnlocks => OthersKeepInv(s, i, e);
    case OtherRoutes(_, _, _, _) => OthersKeepInv(s, i, e);
    case OtherRecords(_) => OthersKeepInv(s, i, e);
  }

  lemma {:induction false} RunKeepsInv(s: State, i: Input, events: seq<Event>)
    requires Inv(s, i) && RunOk(s, i, events)
    ensures Inv(Run(s, i, events), i)
    decreases |events|
  {
    hide Inv, Step, Enabled;
    if events != [] {
      StepKeepsInv(s, i, events[0]);
      RunKeepsInv(Step(s, i, events[0]), i, events[1..]);
    }
  }

  lemma {:induction false} InitialInv(s: State, i: Input)
    requires Initial(s)
    ensures Inv(s, i)
  {
  }

  // ----- Main results ------------------------------------------------------------------

  /**
   In every run, whenever the token was released: the command held the lock; the record on disk
   was the prepared one; the routing state was a stable, journal-free commit outside maintenance;
   its generation was the one the recovery committed, above the expected one, or the captured
   one when already recovered; and no other writer had written since it was bound.
   */
  lemma {:induction false} ReleaseIsBound(s: State, i: Input, events: seq<Event>)
    requires Initial(s) && RunOk(s, i, events)
    ensures var e := Run(s, i, events).evidence;
            e.Some? ==>
              && e.value.holder == Us
              && e.value.disk.record == Present(e.value.prep.record) && Eligible(e.value.prep.record)
              && e.value.disk.routing == Present(e.value.prep.captured.routing)
              && StableCommit(e.value.prep.captured.routing)
              && e.value.disk.journal == Absent && !e.value.disk.maintenance
              && e.value.since == 0
              && var g := e.value.prep.captured.routing.generation;
                 if e.value.prep.already then g == i.expected else g > i.expected
  {
    hide Step, Enabled, Run, RunOk, Eligible;
    InitialInv(s, i);
    RunKeepsInv(s, i, events);
    var e := Run(s, i, events).evidence;
    if e.Some? {
      assert Justified(e.value, i);
      StableMeansCommit(e.value.disk, i);
    }
  }

  lemma {:induction false} StableMeansCommit(d: Disk, i: Input)
    ensures var w := Capture(d, i.bound, i.observe);
            w.Some? ==>
              d.routing == Present(w.value.routing) && (w.value.kind == Stable ==> StableCommit(w.value.routing))
  {
    hide StableCommit, StableJournal, ParkedJournal;
  }

  /** The command finishes successfully only by releasing. */
  lemma {:induction false} FinishedMeansReleased(s: State, i: Input, events: seq<Event>)
    requires Initial(s) && RunOk(s, i, events) && Run(s, i, events).pc.Finished?
    ensures Run(s, i, events).evidence.Some?
  {
    hide Step, Enabled, Run, RunOk;
    InitialInv(s, i);
    RunKeepsInv(s, i, events);
  }

  /** Another writer wrote routing state after the preparation was bound. */
  predicate Drifted(s: State) {
    var pc := s.pc;
    pc.Failed? ||
    ((pc.Ready? || pc.RecLocking? || pc.Recovering? || pc.RelLocking? || pc.Validating?) && s.since > 0)
  }

  lemma {:induction false} DriftStays(s: State, i: Input, e: Event)
    requires Inv(s, i) && Enabled(s, e) && Drifted(s)
    ensures Drifted(Step(s, i, e)) && Step(s, i, e).evidence == s.evidence
  {
    hide Eligible, Matches, GateOpen, Capture, PrepInv, ReleaseInv, EvidenceInv, SafeActive;
    CaptureReads(s.disk, i);
  }

  /** A generation drift is final: from then on no run ever releases the token. */
  lemma {:induction false} DriftIsFinal(s: State, i: Input, events: seq<Event>)
    requires Inv(s, i) && RunOk(s, i, events) && Drifted(s)
    ensures Run(s, i, events).evidence == s.evidence && !Run(s, i, events).pc.Finished?
    decreases |events|
  {
    hide Inv, Step, Enabled;
    if events != [] {
      DriftStays(s, i, events[0]);
      StepKeepsInv(s, i, events[0]);
      DriftIsFinal(Step(s, i, events[0]), i, events[1..]);
    }
  }

  /** At every point where it is checked, another record or generation stops the command and nothing is written. */
  lemma {:induction false} DriftStopsRecovery(s: State, i: Input, c: Choice)
    requires Inv(s, i)
    requires s.pc.Recovering? || s.pc.Matching?
    requires s.disk.record != Present(s.pc.prep.record) || !s.disk.routing.Present? ||
        s.disk.routing.value.generation != s.pc.prep.allowed
    ensures CommandStep(s, i, c).pc == Failed && CommandStep(s, i, c).disk == s.disk
  {
    hide Eligible, Capture, SafeActive;
    GateIsExact(s.pc.prep, i, s.disk);
  }

  /**
   The lock is what protects the record: a writer that does not take it can exchange the record
   between the last comparison and the release, and then the exchanged record is released.
   */
  lemma {:induction false} StrayWriterIsNotSeen(s: State, i: Input, stray: Record, c: Choice)
    requires Inv(s, i) && s.pc.Taking? && c.ok
    requires stray != s.pc.prep.record && ReleasedRecord(stray).Some?
    ensures var t := CommandStep(CommandStep(s.(disk := s.disk.(record := Present(stray))), i, c), i, c);
            t.evidence.Some? && t.evidence.value.disk.record != Present(t.evidence.value.prep.record)
  {
    hide Inv, ReleasedRecord;
  }

  // ----- A run that gets there ---------------------------------------------------------

  function ExampleRecord(rest: string): Record {
    Record("", "", false, "", true, OtherPhase, false, false, false, rest)
  }

  function ExampleDisk(): Disk {
    Disk(Present(Routing(1, Native, Native, NoBackend, NoBackend, NativeActive, "")), Absent, Some(Files("", "", "")),
         false, Present(ExampleRecord("")))
  }

  function ExampleInput(): Input { Input("", "", 1, true, true, "", _ => None) }

  function ExampleState(pc: Pc, holder: Holder): State { State(pc, holder, ExampleDisk(), None, 0) }

  function ExamplePreparation(): Preparation {
    Preparation(ExampleRecord(""), 1,
                Snapshot(ExampleDisk().routing.value, None, Files("", "", ""), Stable, NoBackend), true)
  }

  /** All goes well in this step. */
  function Fine(): Choice { Choice(true, ExampleDisk(), true, true, 0) }

  lemma {:induction false} ExampleSteps()
    ensures var i, c, p := ExampleInput(), Fine(), ExamplePreparation();
            && CommandStep(ExampleState(Start, Free), i, c) == ExampleState(PrepLocking(p.record), Free)
            && CommandStep(ExampleState(PrepLocking(p.record), Free), i, c) == ExampleState(PrepCapturing(p.record), Us)
            && CommandStep(ExampleState(PrepCapturing(p.record), Us), i, c) == ExampleState(Ready(p), Free)
            && CommandStep(ExampleState(Ready(p), Free), i, c) == ExampleState(RelLocking(p), Free)
            && CommandStep(ExampleState(RelLocking(p), Free), i, c) == ExampleState(Validating(p), Us)
            && CommandStep(ExampleState(Validating(p), Us), i, c) == ExampleState(Matching(p), Us)
            && CommandStep(ExampleState(Matching(p), Us), i, c) == ExampleState(Taking(p), Us)
  {
    assert Capture(ExampleDisk(), "", ExampleInput().observe) == Some(ExamplePreparation().captured);
  }

  function Repeated(c: Choice, n: nat): seq<Event> {
    if n == 0 then [] else [Command(c)] + Repeated(c, n - 1)
  }

  lemma {:induction false} RepeatedStep(s: State, i: Input, c: Choice, n: nat)
    ensures Run(s, i, Repeated(c, n + 1)) == Run(CommandStep(s, i, c), i, Repeated(c, n))
    ensures RunOk(s, i, Repeated(c, n + 1)) <==> RunOk(CommandStep(s, i, c), i, Repeated(c, n))
  {
    hide CommandStep;
    assert Repeated(c, n + 1)[1..] == Repeated(c, n);
  }

  /**
   A run from the start, already recovered, that reaches the point between the last comparison
   and the release; there a writer without the lock exchanges the record, and two steps later
   the exchanged record has been released in place of the prepared one.
   */
  lemma {:induction false} StrayWriterRun()
    ensures var i, c, s := ExampleInput(), Fine(), ExampleState(Start, Free);
            var t := Run(s, i, Repeated(c, 7));
            var stray := t.(disk := t.disk.(record := Present(ExampleRecord("stray"))));
            var u := CommandStep(CommandStep(stray, i, c), i, c);
            && Initial(s) && RunOk(s, i, Repeated(c, 7)) && t.pc.Taking?
            && u.evidence.Some? && u.evidence.value.disk.record == Present(ExampleRecord("stray"))
            && u.evidence.value.prep.record == ExampleRecord("")
  {
    hide CommandStep, Run, RunOk, ExampleDisk, Repeated;
    var i, c, p := ExampleInput(), Fine(), ExamplePreparation();
    ExampleSteps();
    RepeatedStep(ExampleState(Start, Free), i, c, 6);
    RepeatedStep(ExampleState(PrepLocking(p.record), Free), i, c, 5);
    RepeatedStep(ExampleState(PrepCapturing(p.record), Us), i, c, 4);
    RepeatedStep(ExampleState(Ready(p), Free), i, c, 3);
    RepeatedStep(ExampleState(RelLocking(p), Free), i, c, 2);
    RepeatedStep(ExampleState(Validating(p), Us), i, c, 1);
    RepeatedStep(ExampleState(Matching(p), Us), i, c, 0);
    NoSteps(ExampleState(Taking(p), Us), i, c);
    StrayReleased(ExampleState(Taking(p), Us), i, c);
  }

  lemma {:induction false} NoSteps(s: State, i: Input, c: Choice)
    ensures Run(s, i, Repeated(c, 0)) == s && RunOk(s, i, Repeated(c, 0))
  {
  }

  lemma {:induction false} StrayReleased(s: State, i: Input, c: Choice)
    requires s.pc.Taking? && c.ok
    ensures var stray := s.(disk := s.disk.(record := Present(ExampleRecord("stray"))));
            var u := CommandStep(CommandStep(stray, i, c), i, c);
            && u.evidence.Some? && u.evidence.value.disk.record == Present(ExampleRecord("stray"))
            && u.evidence.value.prep == s.pc.prep
  {
  }
}
