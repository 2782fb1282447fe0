/**
 The live side of the removal recovery: a command that no other writer interrupts and whose own
 steps succeed finishes exactly when the disk it starts from, and the disk its recovery leaves,
 allow it.
 */
module RecoveryCompletion {

  import opened Recovery
  import opened RecoveryLaws
  import opened Wrappers

  /** The record the input names is there and its gate can be released. */
  predicate HasToken(record: Stored<Record>, i: Input) {
    && record.Present? && Eligible(record.value) && i.complete && i.expected != 0
    && record.value.installation == i.installation && record.value.fingerprint == i.fingerprint
  }

  /** The disk is bound and stable, without a journal, at this generation. */
  predicate StableAt(d: Disk, i: Input, generation: nat) {
    && !d.maintenance && d.journal.Absent? && d.files.Some?
    && d.routing.Present? && d.routing.value.bound == i.bound && d.routing.value.generation == generation
    && StableCommit(d.routing.value)
  }

  /** The disk shows a recovery the command may carry out, at the expected generation. */
  predicate Parks(d: Disk, i: Input) {
    var w := Capture(d, i.bound, i.observe);
    !d.maintenance && w.Some? && w.value.routing.generation == i.expected && w.value.kind != Stable
  }

  /** The recovery rebinds its witness and leaves a stable disk at the generation it reports. */
  predicate RecoversTo(c: Choice, i: Input) {
    c.rebinds && c.reported > i.expected && StableAt(c.left, i, c.reported)
  }

  /** Everything a command needs to finish by itself. */
  predicate Completable(d: Disk, i: Input, c: Choice) {
    && HasToken(d.record, i) && i.desktopExited
    && (StableAt(d, i, i.expected) || (Parks(d, i) && RecoversTo(c, i)))
  }

  /** A stable witness is exactly what a stable disk gives. */
  lemma {:induction false} StableWitness(d: Disk, i: Input, generation: nat)
    requires !d.maintenance
    ensures var w := Capture(d, i.bound, i.observe);
            && (w.Some? && w.value.kind == Stable && w.value.routing.generation == generation <==>
                  StableAt(d, i, generation))
            && (w.Some? && w.value.kind == Stable ==> w.value.journal.None?)
            && (w.Some? ==> SameInputs(w.value, d))
  {
    hide StableCommit, StableJournal, ParkedJournal, NonLocalTarget;
  }

  /** A backend that is set and does not run on this machine. */
  predicate Elsewhere(b: Backend) { b == External || b == NoBackend }

  /** The move a journal records: from its origin to its target, both elsewhere and not the same. */
  predicate Moves(j: Journal) {
    Elsewhere(j.originBackend) && Elsewhere(j.targetBackend) && j.originBackend != j.targetBackend
  }

  /**
   With a journal, a disk gives a witness exactly when the routing is one generation after the
   journal and wants its target: it is there already, mutated and stable, or still at the origin
   and waiting for recovery.
   */
  lemma {:induction false} JournalWitness(d: Disk, i: Input)
    requires d.journal.Present? && d.routing.Present? && d.files.Some?
    ensures var w := Capture(d, i.bound, i.observe); var r, j := d.routing.value, d.journal.value;
            var next := && r.bound == i.bound && j.files == d.files.value && !j.originAuthoritative && Moves(j)
                        && r.generation == j.generation + 1
                        && r.desiredMode == j.target && r.desiredBackend == j.targetBackend;
            var there := && (r.phase == RelayActive || r.phase == NativeActive) && j.configMutated
                         && r.appliedMode == j.target && r.appliedBackend == j.targetBackend;
            var waiting := && r.phase == RecoveryRequired
                           && r.appliedMode == j.origin && r.appliedBackend == j.originBackend;
            && (w.Some? <==> next && (there || waiting))
            && (w.Some? ==> w.value.kind == (if there then StableWithJournal else Parked))
            && (w.Some? ==> w.value.target == j.targetBackend)
  {
    var j := d.journal.value;
    assert NonLocalMove(j) <==> Moves(j);
  }

  lemma {:induction false} StableIsSafe(r: Routing)
    requires StableCommit(r)
    ensures SafeActive(r)
  {}

  // ----- The steps -----------------------------------------------------------------

  function After(s: State, i: Input, c: Choice, n: nat): State { Run(s, i, Repeated(c, n)) }

  lemma {:induction false} AfterStep(s: State, i: Input, c: Choice, n: nat)
    requires n > 0
    ensures After(s, i, c, n) == After(CommandStep(s, i, c), i, c, n - 1)
  {
    hide CommandStep, Run, Repeated;
    RepeatedStep(s, i, c, n - 1);
  }

  lemma {:induction false} Settled(s: State, i: Input, c: Choice, n: nat)
    requires s.pc.Finished? || s.pc.Failed?
    ensures After(s, i, c, n) == s
    decreases n
  {
    hide Run, Repeated;
    if n == 0 {
      NoSteps(s, i, c);
    } else {
      AfterStep(s, i, c, n);
      Settled(s, i, c, n - 1);
    }
  }

  /** The state in which a command ends that releases the record bound to `p`. */
  function ReleasedState(s: State, p: Preparation): State
    requires ReleasedRecord(p.record).Some?
  {
    s.(pc := Finished, holder := Free, disk := s.disk.(record := Present(ReleasedRecord(p.record).value)),
       evidence := Some(Evidence(Us, s.disk, p, s.since)))
  }

  /** From the comparison on, the record is released. */
  lemma {:induction false} ReleaseSteps(s: State, i: Input, c: Choice, n: nat)
    requires s.pc.Matching? && s.holder == Us && c.ok && n >= 4 && Matches(s.pc.prep.record, i, s.disk)
    ensures ReleasedRecord(s.pc.prep.record).Some? && After(s, i, c, n) == ReleasedState(s, s.pc.prep)
  {
    hide After;
    var a := CommandStep(s, i, c);
    var b := CommandStep(a, i, c);
    var d := CommandStep(b, i, c);
    AfterStep(s, i, c, n);
    AfterStep(a, i, c, n - 1);
    AfterStep(b, i, c, n - 2);
    AfterStep(d, i, c, n - 3);
    Settled(CommandStep(d, i, c), i, c, n - 4);
  }

  /** The last locked part: it releases the record exactly when the disk proves the recovery. */
  lemma {:induction false} LastPart(s: State, i: Input, c: Choice, n: nat)
    requires s.pc.RelLocking? && s.holder == Free && c.ok && n >= 6 && Matches(s.pc.prep.record, i, s.disk)
    ensures ReleasedRecord(s.pc.prep.record).Some?
    ensures var p := s.pc.prep;
            After(s, i, c, n) == if Proven(p, i, s.disk) then ReleasedState(s, p) else s.(pc := Failed)
  {
    hide After, Proven, Matches, ReleasedRecord;
    var p := s.pc.prep;
    var a := s.(holder := Us, pc := Validating(p));
    assert CommandStep(s, i, c) == a;
    AfterStep(s, i, c, n);
    AfterStep(a, i, c, n - 1);
    ReleaseSteps(a.(pc := Matching(p)), i, c, n - 2);
    if !Proven(p, i, s.disk) {
      Settled(s.(pc := Failed), i, c, n - 2);
    }
  }

  /** What the middle part needs is there right after the witness was captured. */
  predicate JustCaptured(s: State, p: Preparation, i: Input) {
    && s.holder == Free && Matches(p.record, i, s.disk) && p.allowed == i.expected != 0
    && Capture(s.disk, i.bound, i.observe) == Some(p.captured) && p.captured.routing.generation == i.expected
  }

  lemma {:induction false} WitnessGeneration(d: Disk, i: Input)
    ensures var w := Capture(d, i.bound, i.observe);
            w.Some? ==> d.routing == Present(w.value.routing) && !d.journal.Unreadable? && SameInputs(w.value, d)
  {
    hide Classify;
  }

  /** The record is released, the rest of the last disk stands, and the lock is free. */
  predicate Completed(s: State, t: State) {
    && t.pc.Finished? && t.holder == Free && t.evidence.Some? && s.disk.record.Present?
    && ReleasedRecord(s.disk.record.value).Some?
    && t.disk.record == Present(ReleasedRecord(s.disk.record.value).value)
    && t.disk.(record := s.disk.record) == t.evidence.value.disk
  }

  /** Nothing was released and the lock is free. */
  predicate Refused(s: State, t: State) {
    t.pc.Failed? && t.holder == Free && t.disk.record == s.disk.record && t.evidence == s.evidence
  }

  /** The preparation after a recovery that rebound its witness to this disk and reported its generation. */
  predicate Rebound(p: Preparation, q: Preparation, d: Disk, i: Input, reported: nat) {
    && q.record == p.record && !q.already && q.allowed == reported > i.expected
    && Capture(d, i.bound, i.observe) == Some(q.captured)
    && q.captured.kind == Stable && q.captured.routing.generation == reported
  }

  /** The recovery under the lock, and the look at what it reported. */
  lemma {:induction false} RecoverAndReport(s: State, p: Preparation, i: Input, c: Choice)
    requires s.pc == Recovering(p) && s.holder == Us && c.ok && JustCaptured(s.(holder := Free), p, i)
    requires p.captured.kind != Stable && !p.already
    ensures var u := CommandStep(CommandStep(s, i, c), i, c); var left := c.left.(record := s.disk.record);
            if !s.disk.maintenance && c.rebinds && c.reported > i.expected && Binds(left, i, c.reported) then
              && u.pc.RelLocking? && u == State(u.pc, Free, left, s.evidence, 0)
              && Rebound(p, u.pc.prep, left, i, c.reported)
            else Refused(s, u)
  {
    hide Capture, Matches;
    WitnessGeneration(s.disk, i);
    var left := c.left.(record := s.disk.record);
    StableHasNoJournal(left, i);
  }

  predicate Binds(d: Disk, i: Input, generation: nat) {
    var w := Capture(d, i.bound, i.observe);
    w.Some? && w.value.kind == Stable && w.value.routing.generation == generation
  }

  lemma {:induction false} StableHasNoJournal(d: Disk, i: Input)
    ensures var w := Capture(d, i.bound, i.observe);
            w.Some? && w.value.kind == Stable ==> w.value.journal.None?
  {
    hide StableCommit, StableJournal, ParkedJournal, NonLocalTarget;
  }

  /** A stable disk proves a bound preparation unless it is under maintenance. */
  lemma {:induction false} BoundIsProven(p: Preparation, i: Input, d: Disk)
    requires Capture(d, i.bound, i.observe) == Some(p.captured) && p.captured.kind == Stable
    requires Committed(p, i) == Some(p.captured.routing.generation)
    ensures Proven(p, i, d) <==> !d.maintenance
    ensures StableAt(d, i, p.captured.routing.generation) <==> !d.maintenance
  {
    if !d.maintenance {
      hide Capture, StableCommit, SafeActive;
      StableWitness(d, i, p.captured.routing.generation);
      StableIsSafe(d.routing.value);
    }
  }

  /** The recovery itself, for a witness that was just captured. */
  lemma {:induction false} RecoverySteps(s: State, i: Input, c: Choice, n: nat)
    requires s.pc.RecLocking? && c.ok && n >= 9 && JustCaptured(s, s.pc.prep, i) && s.pc.prep.captured.kind != Stable
    requires !s.pc.prep.already
    ensures var t := After(s, i, c, n);
            if !s.disk.maintenance && RecoversTo(c, i) then
              Completed(s, t) && t.disk.(record := c.left.record) == c.left
            else Refused(s, t)
  {
    hide After, Capture, Matches, CommandStep, ReleasedRecord, StableCommit, StableAt;
    var p := s.pc.prep;
    var a := s.(holder := Us, pc := Recovering(p));
    assert CommandStep(s, i, c) == a by { LockStep(s, i, c); }
    AfterStep(s, i, c, n);
    AfterStep(a, i, c, n - 1);
    AfterStep(CommandStep(a, i, c), i, c, n - 2);
    RecoverAndReport(a, p, i, c);
    var u, left := CommandStep(CommandStep(a, i, c), i, c), c.left.(record := s.disk.record);
    LeftIsStable(c, i, left);
    if u.pc.Failed? {
      Settled(u, i, c, n - 3);
    } else {
      SameRecordMatches(p.record, i, s.disk, left);
      LastPart(u, i, c, n - 3);
      BoundIsProven(u.pc.prep, i, left);
    }
  }

  lemma {:induction false} LockStep(s: State, i: Input, c: Choice)
    requires s.pc.RecLocking? && s.holder == Free && c.ok
    ensures CommandStep(s, i, c) == s.(holder := Us, pc := Recovering(s.pc.prep))
  {}

  lemma {:induction false} SameRecordMatches(r: Record, i: Input, d: Disk, e: Disk)
    requires Matches(r, i, d) && e.record == d.record
    ensures Matches(r, i, e) && d.record == Present(r)
  {}

  /** Where the stable disk comes from does not depend on the record. */
  lemma {:induction false} LeftIsStable(c: Choice, i: Input, left: Disk)
    requires left == c.left.(record := left.record)
    ensures RecoversTo(c, i) <==>
              !left.maintenance && c.rebinds && c.reported > i.expected && Binds(left, i, c.reported)
  {
    if !left.maintenance {
      hide Capture, StableCommit;
      StableWitness(left, i, c.reported);
    }
  }

  /** Both ways on from a captured witness. */
  lemma {:induction false} FromReady(s: State, i: Input, c: Choice, n: nat)
    requires s.pc.Ready? && c.ok && n >= 10 && JustCaptured(s, s.pc.prep, i)
    requires s.pc.prep.already == (s.pc.prep.captured.kind == Stable)
    ensures var t := After(s, i, c, n);
            if i.desktopExited && (StableAt(s.disk, i, i.expected) || (Parks(s.disk, i) && RecoversTo(c, i))) then
              && Completed(s, t)
              && t.disk.(record := s.disk.record) ==
                 if s.pc.prep.already then s.disk else c.left.(record := s.disk.record)
            else Refused(s, t)
  {
    hide After, Capture, Matches, CommandStep, ReleasedRecord, StableCommit, StableAt, RecoversTo;
    var p := s.pc.prep;
    AfterStep(s, i, c, n);
    ReadyStep(s, i, c);
    var a := CommandStep(s, i, c);
    WitnessAlone(s.disk, i);
    if !i.desktopExited {
      Settled(a, i, c, n - 1);
    } else if p.already {
      LastPart(a, i, c, n - 1);
      SameRecordMatches(p.record, i, s.disk, s.disk);
      BoundIsProven(p, i, s.disk);
    } else {
      RecoverySteps(a, i, c, n - 1);
    }
  }

  lemma {:induction false} WitnessAlone(d: Disk, i: Input)
    ensures StableAt(d, i, i.expected) ==> Binds(d, i, i.expected)
  {
    if StableAt(d, i, i.expected) {
      hide Capture, StableCommit;
      StableWitness(d, i, i.expected);
    }
  }

  lemma {:induction false} ReadyStep(s: State, i: Input, c: Choice)
    requires s.pc.Ready? && s.holder == Free
    ensures var p := s.pc.prep;
            CommandStep(s, i, c) ==
            if !i.desktopExited then s.(pc := Failed)
            else if p.already then s.(pc := RelLocking(p)) else s.(pc := RecLocking(p))
  {}

  /** The first three steps: read the record, take the lock, capture the witness. */
  lemma {:induction false} FirstSteps(s: State, i: Input, c: Choice)
    requires Initial(s) && s.holder == Free && c.ok
    ensures var u := CommandStep(CommandStep(CommandStep(s, i, c), i, c), i, c);
            var w := Capture(s.disk, i.bound, i.observe);
            if HasToken(s.disk.record, i) && w.Some? && w.value.routing.generation == i.expected then
              && u.pc.Ready? && u == s.(pc := u.pc, since := 0) && JustCaptured(u, u.pc.prep, i)
              && u.pc.prep.captured == w.value && u.pc.prep.already == (w.value.kind == Stable)
            else Refused(s, u)
  {
    hide Capture;
  }

  /**
   The completion law: thirteen steps of the command alone, each of which succeeds, end with the
   record released if and only if the start is completable; the disk is then the stable one, as it
   was or as the recovery left it. Otherwise the command fails and the record is as it was.
   */
  lemma {:induction false} CommandCompletes(s: State, i: Input, c: Choice)
    requires Initial(s) && s.holder == Free && c.ok
    ensures var t := Run(s, i, Repeated(c, 13));
            if Completable(s.disk, i, c) then
              && Completed(s, t)
              && (StableAt(s.disk, i, i.expected) ==> t.disk.(record := s.disk.record) == s.disk)
              && (!StableAt(s.disk, i, i.expected) ==>
                    t.disk.(record := s.disk.record) == c.left.(record := s.disk.record) &&
                    StableAt(t.disk, i, c.reported) && c.reported > i.expected)
            else Refused(s, t)
  {
    hide After, Capture, Matches, CommandStep, ReleasedRecord, StableCommit, StableAt, HasToken;
    FirstSteps(s, i, c);
    AfterStep(s, i, c, 13);
    AfterStep(CommandStep(s, i, c), i, c, 12);
    AfterStep(CommandStep(CommandStep(s, i, c), i, c), i, c, 11);
    var u := CommandStep(CommandStep(CommandStep(s, i, c), i, c), i, c);
    assert Run(s, i, Repeated(c, 13)) == After(u, i, c, 10) by { AfterIsRun(s, i, c, 13); }
    WitnessAlone(s.disk, i);
    if u.pc.Failed? {
      Settled(u, i, c, 10);
    } else {
      FromReady(u, i, c, 10);
      ReadyIsStable(s.disk, i);
      LeftKeepsStable(c, i, After(u, i, c, 10).disk);
    }
  }

  lemma {:induction false} AfterIsRun(s: State, i: Input, c: Choice, n: nat)
    ensures After(s, i, c, n) == Run(s, i, Repeated(c, n))
  {
    hide Run, Repeated;
  }

  lemma {:induction false} ReadyIsStable(d: Disk, i: Input)
    ensures !d.maintenance && Binds(d, i, i.expected) ==> StableAt(d, i, i.expected)
    ensures StableAt(d, i, i.expected) ==> !d.maintenance
  {
    if !d.maintenance {
      hide Capture, StableCommit;
      StableWitness(d, i, i.expected);
    }
  }

  lemma {:induction false} LeftKeepsStable(c: Choice, i: Input, d: Disk)
    ensures RecoversTo(c, i) && d == c.left.(record := d.record) ==> StableAt(d, i, c.reported)
  {}
}
