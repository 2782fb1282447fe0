/**
 The resident catalog lifecycle (`cmd/opencodex-relay/lifecycle.go`) as a step system. The
 loop, its two worker helpers and the goroutines they start take turns in any order with an
 environment that flips the routing gate, cancels the parent context and lets calls return.
 */
module Lifecycle {

  import opened Wrappers

  /** The lifecycle value the status surface shows. */
  datatype Report = Unknown | Running | Paused

  /** What a loop iteration can be doing. */
  datatype Pc =
    | Start                  // before the configuration checks of `run`
    | Top                    // loop head, before the gate is evaluated
    | PausedWait             // the select of a closed gate
    | Idle                   // the main select
    | RefreshEntry           // in refreshWhileAdmitted, before its gate check
    | RefreshAdmitted        // its check passed, the goroutine is not started yet
    | RefreshWait            // waiting on done, the parent and the poll ticker
    | RefreshDrain(gate: bool) // cancelled, waiting on done; for a closed gate or for the parent
    | Applying               // in applyWhileAdmitted
    | ProbeEntry
    | ProbeAdmitted
    | ProbeWait
    | ProbeDrain
    | Returning              // `run` has returned, its deferred report has not run
    | Finished

  datatype CallKind = Refresh | Probe

  /** One call of the refresh or probe function on its own goroutine. */
  datatype Call = Call(kind: CallKind, returned: bool)

  datatype Params = Params(valid: bool, watched: bool, probes: bool)

  datatype State = State(
    pc: Pc,
    report: Report,
    calls: seq<Call>,     // every call ever started, the latest last
    gate: bool,           // allowsCatalog
    probeGate: bool,      // allowsProbe
    cancelled: bool)      // the parent context is done

  datatype Event =
    | Flip(gate: bool, probeGate: bool)   // the watcher publishes another snapshot
    | Cancel                              // the parent context is cancelled
    | Return(call: nat)                   // a started call returns and fills its done channel
    | Check                               // the loop or a helper evaluates its next condition
    | Skip                                // probeWhileRelayActive finds a recent success
    | GateTick | RefreshDue | ApplyDue | ProbeDue
    | ParentDone                          // a select takes the parent's done channel
    | CallDone                            // a select or drain takes the call's done channel
    | Poll                                // a select takes the poll ticker

  function Init(p: Params): State {
    State(Start, Unknown, [], !p.watched, false, false)
  }

  predicate Outstanding(s: State, i: nat) {
    i < |s.calls| && !s.calls[i].returned
  }

  function Latest(s: State): Option<Call> {
    if s.calls == [] then None else Some(s.calls[|s.calls| - 1])
  }

  /** The done channel of the call the loop waits for holds a value. */
  predicate DoneReady(s: State) {
    Latest(s).Some? && Latest(s).value.returned
  }

  /** Environment steps are possible at any time. */
  function EnvStep(p: Params, s: State, e: Event): Option<State> {
    match e
    case Flip(gate, probeGate) =>
      // Without a watcher the gate is constant; a probe needs an admitting snapshot.
      if p.watched && (probeGate ==> gate && p.probes) then Some(s.(gate := gate, probeGate := probeGate)) else None
    case Cancel => if s.cancelled then None else Some(s.(cancelled := true))
    case Return(i) =>
      if Outstanding(s, i) then Some(s.(calls := s.calls[i := s.calls[i].(returned := true)])) else None
    case _ => None
  }

  function StartCall(s: State, kind: CallKind, pc: Pc): State {
    s.(calls := s.calls + [Call(kind, false)], pc := pc)
  }

  /** `run`: the loop head, its selects and its return. */
  function MainStep(p: Params, s: State, e: Event): Option<State> {
    match (s.pc, e)
    case (Start, Check) =>
      if p.valid then Some(s.(pc := Top)) else Some(s.(pc := Returning, report := Unknown))
    case (Top, Check) =>
      if s.gate then Some(s.(pc := Idle, report := Running)) else Some(s.(pc := PausedWait, report := Paused))
    case (PausedWait, ParentDone) => if s.cancelled then Some(s.(pc := Returning)) else None
    case (PausedWait, GateTick) => Some(s.(pc := Top))
    case (Idle, ParentDone) => if s.cancelled then Some(s.(pc := Returning)) else None
    case (Idle, GateTick) => Some(s.(pc := Top))
    case (Idle, RefreshDue) => Some(s.(pc := RefreshEntry))
    case (Idle, ApplyDue) => Some(s.(pc := Applying))
    case (Idle, ProbeDue) => if p.probes then Some(s.(pc := ProbeEntry)) else None
    case (Applying, Check) => Some(s.(pc := Top))
    case (Returning, Check) => Some(s.(pc := Finished, report := Paused))
    case _ => None
  }

  /** `refreshWhileAdmitted`. */
  function RefreshStep(s: State, e: Event): Option<State> {
    match (s.pc, e)
    case (RefreshEntry, Check) =>
      if s.gate then Some(s.(pc := RefreshAdmitted)) else Some(s.(pc := Top, report := Paused))
    case (RefreshAdmitted, Check) => Some(StartCall(s, Refresh, RefreshWait))
    case (RefreshWait, CallDone) => if DoneReady(s) then Some(s.(pc := Top)) else None
    case (RefreshWait, ParentDone) => if s.cancelled then Some(s.(pc := RefreshDrain(false))) else None
    case (RefreshWait, Poll) => if s.gate then Some(s) else Some(s.(pc := RefreshDrain(true)))
    case (RefreshDrain(gate), CallDone) =>
      if !DoneReady(s) then None
      else if gate then Some(s.(pc := Top, report := Paused)) else Some(s.(pc := Top))
    case _ => None
  }

  /** `probeWhileRelayActive`. */
  function ProbeStep(s: State, e: Event): Option<State> {
    match (s.pc, e)
    case (ProbeEntry, Check) =>
      if s.probeGate then Some(s.(pc := ProbeAdmitted)) else Some(s.(pc := Top))
    case (ProbeEntry, Skip) => Some(s.(pc := Top))
    case (ProbeAdmitted, Check) => Some(StartCall(s, Probe, ProbeWait))
    case (ProbeWait, CallDone) => if DoneReady(s) then Some(s.(pc := Top)) else None
    case (ProbeWait, ParentDone) => if s.cancelled then Some(s.(pc := ProbeDrain)) else None
    case (ProbeWait, Poll) => if s.probeGate then Some(s) else Some(s.(pc := ProbeDrain))
    case (ProbeDrain, CallDone) => if DoneReady(s) then Some(s.(pc := Top)) else None
    case _ => None
  }

  /** Steps of the loop itself, by control point. */
  function LoopStep(p: Params, s: State, e: Event): Option<State> {
    match s.pc
    case RefreshEntry | RefreshAdmitted | RefreshWait | RefreshDrain(_) => RefreshStep(s, e)
    case ProbeEntry | ProbeAdmitted | ProbeWait | ProbeDrain => ProbeStep(s, e)
    case _ => MainStep(p, s, e)
  }

  function Step(p: Params, s: State, e: Event): Option<State> {
    if e.Flip? || e.Cancel? || e.Return? then EnvStep(p, s, e) else LoopStep(p, s, e)
  }

  /** The state after a whole interleaving, if every event in it is possible. */
  function Run(p: Params, s: State, events: seq<Event>): Option<State>
    decreases |events|
  {
    if events == [] then Some(s)
    else
      match Step(p, s, events[0])
      case None => None
      case Some(next) => Run(p, next, events[1..])
  }

  // ----- Safety over every interleaving -------------------------------------

  /** Control points at which the latest call may still be running. */
  predicate Working(pc: Pc) {
    pc.RefreshWait? || pc.RefreshDrain? || pc.ProbeWait? || pc.ProbeDrain?
  }

  /** Control points between publishing Running and the next look at the gate. */
  predicate Admitting(pc: Pc) {
    || pc.Idle? || pc.RefreshEntry? || pc.RefreshAdmitted? || pc.Applying?
    || pc.ProbeEntry? || pc.ProbeAdmitted? || Working(pc)
  }

  ghost predicate Inv(p: Params, s: State) {
    && (forall i :: 0 <= i < |s.calls| - 1 ==> s.calls[i].returned)
    && (!Working(s.pc) ==> forall i :: 0 <= i < |s.calls| ==> s.calls[i].returned)
    && (Working(s.pc) ==> s.calls != [])
    && (Admitting(s.pc) ==> s.report == Running)
    && (s.pc.PausedWait? || s.pc.Finished? ==> s.report == Paused)
    && (s.pc.Start? ==> s.calls == [] && s.report == Unknown)
    && (s.probeGate ==> s.gate)
    && (!p.watched ==> s.gate)
  }

  lemma {:induction false} StepKeepsInv(p: Params, s: State, e: Event)
    requires Inv(p, s) && Step(p, s, e).Some?
    ensures Inv(p, Step(p, s, e).value)
  {
    hide Inv, EnvStep, LoopStep;
    if e.Flip? || e.Cancel? || e.Return? {
      EnvStepKeepsInv(p, s, e);
    } else {
      LoopStepKeepsInv(p, s, e);
    }
  }

  lemma {:induction false} EnvStepKeepsInv(p: Params, s: State, e: Event)
    requires Inv(p, s) && EnvStep(p, s, e).Some?
    ensures Inv(p, EnvStep(p, s, e).value)
  {}

  lemma {:induction false} LoopStepKeepsInv(p: Params, s: State, e: Event)
    requires Inv(p, s) && LoopStep(p, s, e).Some?
    ensures Inv(p, LoopStep(p, s, e).value)
  {
    hide Inv, MainStep, RefreshStep, ProbeStep;
    if MainStep(p, s, e).Some? { MainStepKeepsInv(p, s, e); }
    if RefreshStep(s, e).Some? { RefreshStepKeepsInv(p, s, e); }
    if ProbeStep(s, e).Some? { ProbeStepKeepsInv(p, s, e); }
  }

  lemma {:induction false} MainStepKeepsInv(p: Params, s: State, e: Event)
    requires Inv(p, s) && MainStep(p, s, e).Some?
    ensures Inv(p, MainStep(p, s, e).value)
  {}

  lemma {:induction false} RefreshStepKeepsInv(p: Params, s: State, e: Event)
    requires Inv(p, s) && RefreshStep(s, e).Some?
    ensures Inv(p, RefreshStep(s, e).value)
  {}

  lemma {:induction false} ProbeStepKeepsInv(p: Params, s: State, e: Event)
    requires Inv(p, s) && ProbeStep(s, e).Some?
    ensures Inv(p, ProbeStep(s, e).value)
  {}

  lemma {:induction false} RunKeepsInv(p: Params, s: State, events: seq<Event>)
    requires Inv(p, s) && Run(p, s, events).Some?
    ensures Inv(p, Run(p, s, events).value)
    decreases |events|
  {
    hide Inv, Step;
    if events != [] {
      StepKeepsInv(p, s, events[0]);
      RunKeepsInv(p, Step(p, s, events[0]).value, events[1..]);
    }
  }

  /**
   In every interleaving at most one refresh or probe call is outstanding; while one is, the
   report is Running, so Paused is never shown with egress in flight; and once `run` has
   returned and reported, the report is Paused and no call is outstanding.
   */
  lemma {:induction false} NoEgressWhilePaused(p: Params, events: seq<Event>)
    requires Run(p, Init(p), events).Some?
    ensures var s := Run(p, Init(p), events).value;
            && (forall i, j :: Outstanding(s, i) && Outstanding(s, j) ==> i == j)
            && (forall i :: Outstanding(s, i) ==> s.report == Running && Working(s.pc))
            && (s.report == Paused ==> forall i :: !Outstanding(s, i))
            && (s.pc.Finished? ==> s.report == Paused && forall i :: !Outstanding(s, i))
  {
    RunKeepsInv(p, Init(p), events);
  }

  // ----- Draining after the gate closes -------------------------------------

  /** The gate is closed now and no event of the run opens it. */
  predicate StaysClosed(s: State, events: seq<Event>) {
    !s.gate && !s.probeGate && forall i :: 0 <= i < |events| ==> events[i].Flip? ==> !events[i].gate
  }

  predicate ClosedEvent(s: State, e: Event) {
    !s.gate && !s.probeGate && (e.Flip? ==> !e.gate)
  }

  function Started(p: Params, s: State, events: seq<Event>): nat
    requires Run(p, s, events).Some?
    decreases |events|
  {
    if events == [] then 0
    else
      var next := Step(p, s, events[0]).value;
      (if |next.calls| > |s.calls| then 1 else 0) + Started(p, next, events[1..])
  }

  lemma {:induction false} StepCalls(p: Params, s: State, e: Event)
    requires Step(p, s, e).Some?
    ensures |s.calls| <= |Step(p, s, e).value.calls| <= |s.calls| + 1
  {
    hide MainStep, RefreshStep, ProbeStep;
    if MainStep(p, s, e).Some? { MainStepCalls(p, s, e); }
    if RefreshStep(s, e).Some? { RefreshStepCalls(s, e); }
    if ProbeStep(s, e).Some? { ProbeStepCalls(s, e); }
  }

  lemma {:induction false} MainStepCalls(p: Params, s: State, e: Event)
    requires MainStep(p, s, e).Some?
    ensures MainStep(p, s, e).value.calls == s.calls
  {
  }

  lemma {:induction false} RefreshStepCalls(s: State, e: Event)
    requires RefreshStep(s, e).Some?
    ensures |s.calls| <= |RefreshStep(s, e).value.calls| <= |s.calls| + 1
  {
  }

  lemma {:induction false} ProbeStepCalls(s: State, e: Event)
    requires ProbeStep(s, e).Some?
    ensures |s.calls| <= |ProbeStep(s, e).value.calls| <= |s.calls| + 1
  {
  }

  /** What is counted are exactly the calls a run adds. */
  lemma {:induction false} StartedCounts(p: Params, s: State, events: seq<Event>)
    requires Run(p, s, events).Some?
    ensures |Run(p, s, events).value.calls| == |s.calls| + Started(p, s, events)
    decreases |events|
  {
    hide Step;
    if events != [] {
      StepCalls(p, s, events[0]);
      StartedCounts(p, Step(p, s, events[0]).value, events[1..]);
    }
  }

  predicate PastCheck(pc: Pc) {
    pc.RefreshAdmitted? || pc.ProbeAdmitted?
  }

  /** A step under a closed gate: nothing new gets past the check, and a pause that is reported stays. */
  predicate Closing(s: State, t: State) {
    && !t.gate && !t.probeGate
    && (PastCheck(t.pc) ==> PastCheck(s.pc) && |t.calls| == |s.calls|)
    && (|t.calls| > |s.calls| ==> PastCheck(s.pc) && !PastCheck(t.pc))
    && (s.report == Paused && !Admitting(s.pc) ==> t.report == Paused && !Admitting(t.pc))
  }

  lemma {:induction false} ClosedStep(p: Params, s: State, e: Event)
    requires Inv(p, s) && ClosedEvent(s, e) && Step(p, s, e).Some?
    ensures Closing(s, Step(p, s, e).value)
  {
    hide MainStep, RefreshStep, ProbeStep, Inv, Closing;
    if MainStep(p, s, e).Some? { ClosedMainStep(p, s, e); }
    if RefreshStep(s, e).Some? { ClosedRefreshStep(s, e); }
    if ProbeStep(s, e).Some? { ClosedProbeStep(s, e); }
    if EnvStep(p, s, e).Some? { ClosedEnvStep(p, s, e); }
  }

  lemma {:induction false} ClosedMainStep(p: Params, s: State, e: Event)
    requires Inv(p, s) && ClosedEvent(s, e) && MainStep(p, s, e).Some?
    ensures Closing(s, MainStep(p, s, e).value)
  {
  }

  lemma {:induction false} ClosedRefreshStep(s: State, e: Event)
    requires ClosedEvent(s, e) && RefreshStep(s, e).Some?
    ensures Closing(s, RefreshStep(s, e).value)
  {
  }

  lemma {:induction false} ClosedProbeStep(s: State, e: Event)
    requires ClosedEvent(s, e) && ProbeStep(s, e).Some?
    ensures Closing(s, ProbeStep(s, e).value)
  {
  }

  lemma {:induction false} ClosedEnvStep(p: Params, s: State, e: Event)
    requires ClosedEvent(s, e) && EnvStep(p, s, e).Some?
    ensures Closing(s, EnvStep(p, s, e).value)
  {
  }

  /** After the gate has closed for good, at most one call starts, and only if its check had already passed. */
  lemma {:induction false} AtMostOneMoreStart(p: Params, s: State, events: seq<Event>)
    requires Inv(p, s) && StaysClosed(s, events) && Run(p, s, events).Some?
    ensures Started(p, s, events) <= if PastCheck(s.pc) then 1 else 0
    decreases |events|
  {
    hide Inv, Step;
    if events != [] {
      var e, t := events[0], Step(p, s, events[0]).value;
      assert ClosedEvent(s, e);
      ClosedStep(p, s, e);
      StepKeepsInv(p, s, e);
      assert forall i :: 0 <= i < |events[1..]| ==> events[1..][i] == events[i + 1];
      AtMostOneMoreStart(p, t, events[1..]);
    }
  }

  /** How far the loop is from its next report, once the gate is closed. */
  function Rank(pc: Pc): nat {
    match pc
    case Start => 4
    case RefreshAdmitted => 8
    case ProbeAdmitted => 8
    case RefreshWait => 7
    case ProbeWait => 7
    case RefreshDrain(_) => 6
    case ProbeDrain => 6
    case Idle => 4
    case RefreshEntry => 3
    case ProbeEntry => 3
    case Applying => 3
    case PausedWait => 3
    case Top => 2
    case Returning => 1
    case Finished => 0
  }

  function Live(calls: seq<Call>): nat {
    if calls == [] then 0 else (if calls[0].returned then 0 else 1) + Live(calls[1..])
  }

  /** Control point, outstanding calls and pending cancellation, as one number. */
  function Measure(s: State): nat {
    3 * Rank(s.pc) + Live(s.calls) + (if s.cancelled then 0 else 1)
  }

  lemma {:induction false} LiveAppend(calls: seq<Call>, c: Call)
    ensures Live(calls + [c]) == Live(calls) + (if c.returned then 0 else 1)
  {
    if calls == [] {
      assert (calls + [c])[1..] == [];
    } else {
      assert (calls + [c])[1..] == calls[1..] + [c];
      LiveAppend(calls[1..], c);
    }
  }

  lemma {:induction false} LiveReturn(calls: seq<Call>, i: nat)
    requires i < |calls| && !calls[i].returned
    ensures Live(calls[i := calls[i].(returned := true)]) == Live(calls) - 1
  {
    var after := calls[i := calls[i].(returned := true)];
    if i == 0 {
      assert after[1..] == calls[1..];
    } else {
      assert after[1..] == calls[1..][i - 1 := calls[1..][i - 1].(returned := true)];
      LiveReturn(calls[1..], i - 1);
    }
  }

  /** With the gate closed, every event but another closed snapshot brings the report closer. */
  lemma {:induction false} MeasureDecreases(p: Params, s: State, e: Event)
    requires Inv(p, s) && ClosedEvent(s, e) && Step(p, s, e).Some? && !e.Flip?
    ensures var t := Step(p, s, e).value; t.report == Paused || Measure(t) < Measure(s)
  {
    hide Live;
    match e
    case Return(i) => LiveReturn(s.calls, i);
    case _ =>
      if PastCheck(s.pc) {
        LiveAppend(s.calls, Call(Refresh, false));
        LiveAppend(s.calls, Call(Probe, false));
      }
  }

  /** The loop is never stuck: some event other than a snapshot or a cancellation is always possible. */
  lemma {:induction false} NeverStuck(p: Params, s: State)
    requires Inv(p, s) && !s.pc.Finished?
    ensures exists e: Event :: !e.Flip? && !e.Cancel? && Step(p, s, e).Some?
  {
    if Working(s.pc) {
      var last := |s.calls| - 1;
      if DoneReady(s) {
        assert Step(p, s, CallDone).Some?;
      } else {
        assert Outstanding(s, last);
        assert Step(p, s, Return(last)).Some?;
      }
    } else if s.pc.PausedWait? || s.pc.Idle? {
      assert Step(p, s, GateTick).Some?;
    } else {
      assert Step(p, s, Check).Some?;
    }
  }

  /** The number of loop events in a run. */
  function LoopEvents(events: seq<Event>): nat {
    if events == [] then 0 else (if events[0].Flip? then 0 else 1) + LoopEvents(events[1..])
  }

  predicate NoneOutstanding(s: State) {
    forall i :: 0 <= i < |s.calls| ==> s.calls[i].returned
  }

  /** Some state along the run shows Paused, and no call is outstanding there. */
  ghost predicate Pauses(p: Params, s: State, events: seq<Event>)
    requires Run(p, s, events).Some?
    decreases |events|
  {
    (s.report == Paused && NoneOutstanding(s)) || (events != [] && Pauses(p, Step(p, s, events[0]).value, events[1..]))
  }

  lemma {:induction false} PausedIsIdle(p: Params, s: State)
    requires Inv(p, s) && s.report == Paused
    ensures NoneOutstanding(s)
  {
  }

  /**
   Once the gate closes and stays closed, every run with more loop events than the measure
   reports Paused, with no call outstanding.
   */
  lemma {:induction false} ClosedGatePauses(p: Params, s: State, events: seq<Event>)
    requires Inv(p, s) && StaysClosed(s, events) && Run(p, s, events).Some?
    requires LoopEvents(events) > Measure(s)
    ensures Pauses(p, s, events)
    decreases |events|
  {
    hide Inv, Step, Measure, NoneOutstanding;
    if s.report == Paused {
      PausedIsIdle(p, s);
    } else {
      var e, t := events[0], Step(p, s, events[0]).value;
      assert ClosedEvent(s, e);
      ClosedStep(p, s, e);
      StepKeepsInv(p, s, e);
      assert forall i :: 0 <= i < |events[1..]| ==> events[1..][i] == events[i + 1];
      if e.Flip? {
        FlipKeepsMeasure(p, s, e);
      } else {
        MeasureDecreases(p, s, e);
      }
      if t.report == Paused {
        PausedIsIdle(p, t);
        assert Pauses(p, t, events[1..]);
      } else {
        ClosedGatePauses(p, t, events[1..]);
      }
    }
  }

  /**
   The drain point, over whole runs: whatever happened before, once the gate closes for good at
   most one more call starts, and enough loop events bring a Paused report, at which no call is
   outstanding.
   */
  lemma {:induction false} DrainAfterClose(p: Params, before: seq<Event>, after: seq<Event>)
    requires Run(p, Init(p), before).Some?
    requires var s := Run(p, Init(p), before).value; StaysClosed(s, after) && Run(p, s, after).Some?
    ensures var s := Run(p, Init(p), before).value;
            && Started(p, s, after) <= 1
            && (LoopEvents(after) > Measure(s) ==> Pauses(p, s, after))
  {
    hide Inv, Step, Measure;
    RunKeepsInv(p, Init(p), before) by { assert Inv(p, Init(p)) by { InitInv(p); } }
    var s := Run(p, Init(p), before).value;
    AtMostOneMoreStart(p, s, after);
    if LoopEvents(after) > Measure(s) {
      ClosedGatePauses(p, s, after);
    }
  }

  lemma {:induction false} InitInv(p: Params)
    ensures Inv(p, Init(p))
  {}

  lemma {:induction false} FlipKeepsMeasure(p: Params, s: State, e: Event)
    requires e.Flip? && Step(p, s, e).Some?
    ensures Measure(Step(p, s, e).value) == Measure(s)
  {}

  /**
   The configuration error path reports Unknown only for a moment: the deferred report
   replaces it, so a lifecycle that never started also ends as Paused.
   */
  lemma {:induction false} InvalidConfigEndsPaused(p: Params, events: seq<Event>)
    requires !p.valid && Run(p, Init(p), events).Some? && Run(p, Init(p), events).value.pc.Finished?
    ensures Run(p, Init(p), events).value.report == Paused && Run(p, Init(p), events).value.calls == []
  {
    RunKeepsInv(p, Init(p), events);
    InvalidStartsNothing(p, Init(p), events);
  }

  lemma {:induction false} InvalidStartsNothing(p: Params, s: State, events: seq<Event>)
    requires !p.valid && (s.pc.Start? || s.pc.Returning? || s.pc.Finished?) && s.calls == []
    requires Run(p, s, events).Some?
    ensures Run(p, s, events).value.calls == []
    decreases |events|
  {
    if events != [] {
      InvalidStartsNothing(p, Step(p, s, events[0]).value, events[1..]);
    }
  }
}
