/**
 The open side of the lifecycle: with the gate open the loop never pauses, it returns only when it
 is told to, and a due refresh or probe becomes a call.
 */
module LifecycleLiveness {

  import opened Lifecycle
  import opened Wrappers

  // ----- An open gate ------------------------------------------------------------

  /** No event of the run closes the gate. */
  predicate NeverCloses(events: seq<Event>) {
    forall i :: 0 <= i < |events| && events[i].Flip? ==> events[i].gate
  }

  /** `run` is over, or the gate is open and nothing paused is on its way. */
  predicate Open(s: State) {
    s.gate && (s.pc.Finished? || (s.report != Paused && !s.pc.PausedWait? && s.pc != RefreshDrain(true)))
  }

  lemma {:induction false} OpenStep(p: Params, s: State, e: Event)
    requires Open(s) && Step(p, s, e).Some? && (e.Flip? ==> e.gate)
    ensures Open(Step(p, s, e).value)
  {
    hide MainStep, RefreshStep, ProbeStep;
    if MainStep(p, s, e).Some? { OpenMainStep(p, s, e); }
    if RefreshStep(s, e).Some? { OpenRefreshStep(s, e); }
    if ProbeStep(s, e).Some? { OpenProbeStep(s, e); }
  }

  lemma {:induction false} OpenMainStep(p: Params, s: State, e: Event)
    requires Open(s) && MainStep(p, s, e).Some?
    ensures Open(MainStep(p, s, e).value)
  {
  }

  lemma {:induction false} OpenRefreshStep(s: State, e: Event)
    requires Open(s) && RefreshStep(s, e).Some?
    ensures Open(RefreshStep(s, e).value)
  {
  }

  lemma {:induction false} OpenProbeStep(s: State, e: Event)
    requires Open(s) && ProbeStep(s, e).Some?
    ensures Open(ProbeStep(s, e).value)
  {
  }

  lemma {:induction false} OpenRun(p: Params, s: State, events: seq<Event>)
    requires Open(s) && NeverCloses(events) && Run(p, s, events).Some?
    ensures Open(Run(p, s, events).value)
    decreases |events|
  {
    hide Open, Step;
    if events != [] {
      OpenStep(p, s, events[0]);
      assert forall i :: 0 <= i < |events[1..]| ==> events[1..][i] == events[i + 1];
      OpenRun(p, Step(p, s, events[0]).value, events[1..]);
    }
  }

  /** From an open state a run that never closes the gate reports Paused only when it is finished. */
  lemma {:induction false} OpenGateNeverPauses(p: Params, s: State, events: seq<Event>)
    requires s.gate && s.report != Paused && !s.pc.PausedWait? && s.pc != RefreshDrain(true)
    requires NeverCloses(events) && Run(p, s, events).Some?
    ensures var t := Run(p, s, events).value; t.gate && (t.report == Paused ==> t.pc.Finished?)
  {
    hide Run, NeverCloses;
    OpenRun(p, s, events);
  }

  /** Without a watcher nothing closes the gate, so a whole run shows Paused only at its end. */
  lemma {:induction false} UnwatchedNeverPauses(p: Params, events: seq<Event>)
    requires !p.watched && Run(p, Init(p), events).Some?
    ensures var t := Run(p, Init(p), events).value; t.report == Paused ==> t.pc.Finished?
  {
    hide Step;
    NoFlips(p, Init(p), events);
    OpenGateNeverPauses(p, Init(p), events);
  }

  lemma {:induction false} NoFlips(p: Params, s: State, events: seq<Event>)
    requires !p.watched && Run(p, s, events).Some?
    ensures forall i :: 0 <= i < |events| ==> !events[i].Flip?
    decreases |events|
  {
    hide LoopStep;
    if events != [] {
      NoFlips(p, Step(p, s, events[0]).value, events[1..]);
      assert forall i :: 0 < i < |events| ==> events[i] == events[1..][i - 1];
    }
  }

  // ----- Returning -----------------------------------------------------------------

  predicate Returns(pc: Pc) { pc.Returning? || pc.Finished? }

  /** Returning has a cause, and a drain that is not for the gate has one too. */
  predicate Caused(p: Params, s: State) {
    && (Returns(s.pc) ==> s.cancelled || !p.valid)
    && (s.pc == RefreshDrain(false) ==> s.cancelled)
    && (s.probeGate ==> p.probes)
  }

  lemma {:induction false} CausedStep(p: Params, s: State, e: Event)
    requires Caused(p, s) && Step(p, s, e).Some?
    ensures Caused(p, Step(p, s, e).value)
  {
    hide MainStep, RefreshStep, ProbeStep, EnvStep, Caused;
    if MainStep(p, s, e).Some? { CausedMainStep(p, s, e); }
    if RefreshStep(s, e).Some? { CausedRefreshStep(p, s, e); }
    if ProbeStep(s, e).Some? { CausedProbeStep(p, s, e); }
    if EnvStep(p, s, e).Some? { CausedEnvStep(p, s, e); }
  }

  lemma {:induction false} CausedMainStep(p: Params, s: State, e: Event)
    requires Caused(p, s) && MainStep(p, s, e).Some?
    ensures Caused(p, MainStep(p, s, e).value)
  {
  }

  lemma {:induction false} CausedEnvStep(p: Params, s: State, e: Event)
    requires Caused(p, s) && EnvStep(p, s, e).Some?
    ensures Caused(p, EnvStep(p, s, e).value)
  {
  }

  lemma {:induction false} CausedRefreshStep(p: Params, s: State, e: Event)
    requires Caused(p, s) && RefreshStep(s, e).Some?
    ensures Caused(p, RefreshStep(s, e).value)
  {
  }

  lemma {:induction false} CausedProbeStep(p: Params, s: State, e: Event)
    requires Caused(p, s) && ProbeStep(s, e).Some?
    ensures Caused(p, ProbeStep(s, e).value)
  {
  }

  lemma {:induction false} CausedRun(p: Params, s: State, events: seq<Event>)
    requires Caused(p, s) && Run(p, s, events).Some?
    ensures Caused(p, Run(p, s, events).value)
    decreases |events|
  {
    hide Caused, Step;
    if events != [] {
      CausedStep(p, s, events[0]);
      CausedRun(p, Step(p, s, events[0]).value, events[1..]);
    }
  }

  /** In every interleaving `run` returns only for a cancelled parent or an invalid configuration. */
  lemma {:induction false} ReturnsOnlyWhenTold(p: Params, events: seq<Event>)
    requires Run(p, Init(p), events).Some?
    ensures var t := Run(p, Init(p), events).value; t.pc.Returning? || t.pc.Finished? ==> t.cancelled || !p.valid
  {
    hide Run;
    CausedRun(p, Init(p), events);
  }

  // ----- A due call is made ------------------------------------------------------------

  /** The calls of the later state continue those of the earlier one, kind by kind. */
  predicate Continues(s: State, t: State) {
    |s.calls| <= |t.calls| && forall i :: 0 <= i < |s.calls| ==> t.calls[i].kind == s.calls[i].kind
  }

  lemma {:induction false} CallsStay(p: Params, s: State, e: Event)
    requires Step(p, s, e).Some?
    ensures Continues(s, Step(p, s, e).value)
  {
    hide MainStep, RefreshStep, ProbeStep;
    if MainStep(p, s, e).Some? { MainStepCalls(p, s, e); }
    if RefreshStep(s, e).Some? { RefreshCallsStay(s, e); }
    if ProbeStep(s, e).Some? { ProbeCallsStay(s, e); }
  }

  lemma {:induction false} RefreshCallsStay(s: State, e: Event)
    requires RefreshStep(s, e).Some?
    ensures Continues(s, RefreshStep(s, e).value)
  {
  }

  lemma {:induction false} ProbeCallsStay(s: State, e: Event)
    requires ProbeStep(s, e).Some?
    ensures Continues(s, ProbeStep(s, e).value)
  {
  }

  lemma {:induction false} CallsStayOverRun(p: Params, s: State, events: seq<Event>)
    requires Run(p, s, events).Some?
    ensures Continues(s, Run(p, s, events).value)
    decreases |events|
  {
    hide Step;
    if events != [] {
      CallsStay(p, s, events[0]);
      CallsStayOverRun(p, Step(p, s, events[0]).value, events[1..]);
    }
  }

  /** The first call the later state has beyond the earlier one is of this kind. */
  predicate Calls(s: State, t: State, kind: CallKind) {
    |s.calls| < |t.calls| && t.calls[|s.calls|].kind == kind
  }

  /** How many events of the run are the loop's own. */
  function Moves(events: seq<Event>): nat {
    if events == [] then 0
    else (if events[0].Flip? || events[0].Cancel? || events[0].Return? then 0 else 1) + Moves(events[1..])
  }

  /** Events of the environment leave the loop where it is. */
  lemma {:induction false} EnvironmentWaits(p: Params, s: State, e: Event)
    requires Step(p, s, e).Some? && (e.Flip? || e.Cancel? || e.Return?)
    ensures var t := Step(p, s, e).value; t.pc == s.pc && |t.calls| == |s.calls| && (!e.Flip? ==> t.gate == s.gate)
    ensures var t := Step(p, s, e).value;
            (e.Flip? ==> t.gate == e.gate && t.probeGate == e.probeGate) && (!e.Flip? ==> t.probeGate == s.probeGate)
  {
  }

  predicate RefreshPending(s: State) { s.pc.RefreshEntry? || s.pc.RefreshAdmitted? }

  /** A refresh that has become due is called after two moves, if the gate stays open. */
  lemma {:induction false} DueRefreshIsCalled(p: Params, s: State, events: seq<Event>)
    requires s.gate && RefreshPending(s) && NeverCloses(events) && Run(p, s, events).Some?
    requires Moves(events) >= if s.pc.RefreshEntry? then 2 else 1
    ensures Calls(s, Run(p, s, events).value, Refresh)
    decreases |events|
  {
    hide EnvStep, MainStep, ProbeStep;
    var e, t := events[0], Step(p, s, events[0]).value;
    assert forall i :: 0 <= i < |events[1..]| ==> events[1..][i] == events[i + 1];
    if e.Flip? || e.Cancel? || e.Return? {
      EnvironmentWaits(p, s, e);
    }
    if RefreshPending(t) {
      DueRefreshIsCalled(p, t, events[1..]);
    } else {
      CallsStayOverRun(p, t, events[1..]);
    }
  }

  predicate ProbePending(s: State) { s.pc.ProbeEntry? || s.pc.ProbeAdmitted? }

  /** No event of the run closes the probe gate, and no probe is skipped as recent. */
  predicate ProbesStay(events: seq<Event>) {
    forall i :: 0 <= i < |events| ==> events[i] != Skip && (events[i].Flip? ==> events[i].probeGate)
  }

  /** A probe that has become due is called after two moves, if its gate stays open and none is recent. */
  lemma {:induction false} DueProbeIsCalled(p: Params, s: State, events: seq<Event>)
    requires s.probeGate && ProbePending(s) && ProbesStay(events) && Run(p, s, events).Some?
    requires Moves(events) >= if s.pc.ProbeEntry? then 2 else 1
    ensures Calls(s, Run(p, s, events).value, Probe)
    decreases |events|
  {
    hide EnvStep, MainStep, RefreshStep;
    var e, t := events[0], Step(p, s, events[0]).value;
    assert forall i :: 0 <= i < |events[1..]| ==> events[1..][i] == events[i + 1];
    if e.Flip? || e.Cancel? || e.Return? {
      EnvironmentWaits(p, s, e);
    }
    if ProbePending(t) {
      DueProbeIsCalled(p, t, events[1..]);
    } else {
      CallsStayOverRun(p, t, events[1..]);
    }
  }

  // ----- The loop can always get to work --------------------------------------------------

  /** What the way back to the loop head leaves alone. */
  predicate Ready(s: State, t: State) {
    && t.pc.Top? && t.gate == s.gate && t.probeGate == s.probeGate && t.cancelled == s.cancelled
    && |s.calls| <= |t.calls|
  }

  lemma {:induction false} RunCons(p: Params, s: State, e: Event, rest: seq<Event>)
    requires Step(p, s, e).Some?
    ensures Run(p, s, [e] + rest) == Run(p, Step(p, s, e).value, rest)
    ensures Run(p, s, [e]) == Step(p, s, e)
  {
    hide Step;
    assert ([e] + rest)[1..] == rest;
  }

  lemma {:induction false} RunAppend(p: Params, s: State, a: seq<Event>, b: seq<Event>)
    requires Run(p, s, a).Some?
    ensures Run(p, s, a + b) == Run(p, Run(p, s, a).value, b)
    decreases |a|
  {
    hide Step;
    if a == [] {
      assert a + b == b;
    } else {
      assert a == [a[0]] + a[1..] && a + b == [a[0]] + (a[1..] + b);
      RunAppend(p, Step(p, s, a[0]).value, a[1..], b);
      RunCons(p, s, a[0], a[1..] + b);
    }
  }

  /** Neither a new snapshot nor a cancellation is needed. */
  predicate Unaided(way: seq<Event>) {
    forall i :: 0 <= i < |way| ==> !way[i].Flip? && !way[i].Cancel?
  }

  /** Letting the latest call return, and taking its result. */
  function Finish(s: State): seq<Event>
    requires s.calls != []
  {
    if Outstanding(s, |s.calls| - 1) then [Return(|s.calls| - 1)] + [CallDone] else [CallDone]
  }

  lemma {:induction false} FinishCall(p: Params, s: State)
    requires Working(s.pc) && s.calls != []
    ensures Run(p, s, Finish(s)).Some? && Ready(s, Run(p, s, Finish(s)).value)
  {
    hide Run;
    var t := s;
    if Outstanding(s, |s.calls| - 1) {
      t := Step(p, s, Return(|s.calls| - 1)).value;
      RunCons(p, s, Return(|s.calls| - 1), [CallDone]);
    }
    assert DoneReady(t);
    RunCons(p, t, CallDone, []);
  }

  /** A call that is past its check is started, and then finished. */
  lemma {:induction false} StartAndFinish(p: Params, s: State) returns (way: seq<Event>)
    requires PastCheck(s.pc)
    ensures Run(p, s, way).Some? && Ready(s, Run(p, s, way).value) && |way| <= 3 && Unaided(way)
  {
    hide Run;
    var t := Step(p, s, Check).value;
    way := [Check] + Finish(t);
    RunCons(p, s, Check, Finish(t));
    FinishCall(p, t);
  }

  /** From every reachable state of a lifecycle that is not told to return, four events lead to the loop head. */
  lemma {:induction false} BackToTop(p: Params, s: State) returns (way: seq<Event>)
    requires Inv(p, s) && p.valid && !Returns(s.pc)
    ensures Run(p, s, way).Some? && Ready(s, Run(p, s, way).value) && |way| <= 4 && Unaided(way)
  {
    hide Run, Step, Inv;
    if s.pc.Top? {
      way := [];
      RunNone(p, s);
    } else if Working(s.pc) {
      way := Finish(s) by { WorkingHasCall(p, s); }
      WorkingHasCall(p, s);
      FinishCall(p, s);
    } else if PastCheck(s.pc) {
      way := StartAndFinish(p, s);
    } else if s.pc.RefreshEntry? && s.gate {
      var t := Step(p, s, Check).value by { EntryPasses(p, s); }
      EntryPasses(p, s);
      var rest := StartAndFinish(p, t);
      way := [Check] + rest;
      RunCons(p, s, Check, rest);
    } else {
      way := [OneEvent(s.pc)];
      OneStep(p, s);
      RunCons(p, s, OneEvent(s.pc), []);
    }
  }

  lemma {:induction false} RunNone(p: Params, s: State)
    ensures Run(p, s, []) == Some(s)
  {}

  lemma {:induction false} WorkingHasCall(p: Params, s: State)
    requires Inv(p, s) && Working(s.pc)
    ensures s.calls != []
  {}

  lemma {:induction false} EntryPasses(p: Params, s: State)
    requires s.pc.RefreshEntry? && s.gate
    ensures Step(p, s, Check) == Some(s.(pc := RefreshAdmitted))
  {}

  function OneEvent(pc: Pc): Event {
    if pc.PausedWait? || pc.Idle? then GateTick else if pc.ProbeEntry? then Skip else Check
  }

  lemma {:induction false} OneStep(p: Params, s: State)
    requires p.valid && !Returns(s.pc) && !s.pc.Top? && !Working(s.pc) && !PastCheck(s.pc)
    requires !(s.pc.RefreshEntry? && s.gate)
    ensures Step(p, s, OneEvent(s.pc)).Some? && Ready(s, Step(p, s, OneEvent(s.pc)).value)
  {}

  /** At the loop head of an open gate, a due refresh or an admitted due probe is under way after four events. */
  lemma {:induction false} TopCalls(p: Params, s: State, kind: CallKind)
    requires s.pc.Top? && s.gate && (kind == Probe ==> p.probes && s.probeGate)
    ensures var due := if kind == Refresh then RefreshDue else ProbeDue;
            var t := Run(p, s, [Check] + ([due] + ([Check] + [Check])));
            t.Some? && t.value.calls == s.calls + [Call(kind, false)] && t.value.report == Running
  {
    hide Run;
    var due := if kind == Refresh then RefreshDue else ProbeDue;
    var a := Step(p, s, Check).value;
    var b := Step(p, a, due).value;
    var c := Step(p, b, Check).value;
    RunCons(p, s, Check, [due] + ([Check] + [Check]));
    RunCons(p, a, due, [Check] + [Check]);
    RunCons(p, b, Check, [Check]);
    RunCons(p, c, Check, []);
  }

  /**
   From every reachable state of a valid, uncancelled lifecycle whose gate is open, at most eight
   events without a snapshot or a cancellation start another refresh; and another probe, when the
   snapshot admits probes.
   */
  lemma {:induction false} WorkIsPossible(p: Params, before: seq<Event>, kind: CallKind) returns (way: seq<Event>)
    requires p.valid && Run(p, Init(p), before).Some?
    requires var s := Run(p, Init(p), before).value; s.gate && !s.cancelled && (kind == Probe ==> s.probeGate)
    ensures |way| <= 8 && Unaided(way)
    ensures var s := Run(p, Init(p), before).value; var t := Run(p, s, way);
            && t.Some? && |t.value.calls| > |s.calls| && t.value.report == Running
            && Latest(t.value) == Some(Call(kind, false))
  {
    hide Run, Step, Inv;
    var s := Run(p, Init(p), before).value;
    InitInv(p);
    RunKeepsInv(p, Init(p), before);
    CausedRun(p, Init(p), before);
    var first := BackToTop(p, s);
    var t := Run(p, s, first).value;
    TopCalls(p, t, kind);
    var due := if kind == Refresh then RefreshDue else ProbeDue;
    way := first + ([Check] + ([due] + ([Check] + [Check])));
    RunAppend(p, s, first, [Check] + ([due] + ([Check] + [Check])));
  }

  // ----- Cancellation ------------------------------------------------------------------------

  /** Every select hears a cancelled parent: the loop returns, or drains the call it waits for. */
  lemma {:induction false} CancelIsHeard(p: Params, s: State)
    requires s.cancelled && (s.pc.PausedWait? || s.pc.Idle? || s.pc.RefreshWait? || s.pc.ProbeWait?)
    ensures Step(p, s, ParentDone).Some?
    ensures var t := Step(p, s, ParentDone).value;
            && (s.pc.PausedWait? || s.pc.Idle? ==> t.pc == Returning)
            && (s.pc.RefreshWait? ==> t.pc == RefreshDrain(false))
            && (s.pc.ProbeWait? ==> t.pc == ProbeDrain)
            && t.calls == s.calls
  {}

  /** From every reachable state of a cancelled lifecycle, at most seven events end it, with Paused. */
  lemma {:induction false} CancelledCanFinish(p: Params, before: seq<Event>) returns (way: seq<Event>)
    requires Run(p, Init(p), before).Some? && Run(p, Init(p), before).value.cancelled
    ensures |way| <= 7 && Unaided(way)
    ensures var t := Run(p, Run(p, Init(p), before).value, way);
            t.Some? && t.value.pc.Finished? && t.value.report == Paused && NoneOutstanding(t.value)
  {
    hide Run, Step, Inv, NoneOutstanding;
    var s := Run(p, Init(p), before).value;
    InitInv(p);
    RunKeepsInv(p, Init(p), before);
    if Returns(s.pc) || !p.valid {
      if !p.valid { InvalidStays(p, Init(p), before); }
      if s.pc.Finished? { EndIsPaused(p, s); }
      way := Ending(p, s);
    } else {
      var first := BackToTop(p, s);
      var t := Run(p, s, first).value;
      TopReturns(p, t);
      var rest := [Check] + ([ParentDone] + [Check]);
      way := first + rest;
      RunAppend(p, s, first, rest);
    }
    var t := Run(p, s, way).value;
    RunKeepsInv(p, s, way);
    PausedIsIdle(p, t);
  }

  lemma {:induction false} TopReturns(p: Params, s: State)
    requires s.pc.Top? && s.cancelled
    ensures var t := Run(p, s, [Check] + ([ParentDone] + [Check]));
            t.Some? && t.value.pc.Finished? && t.value.report == Paused
  {
    hide Run;
    var a := Step(p, s, Check).value;
    var b := Step(p, a, ParentDone).value;
    RunCons(p, s, Check, [ParentDone] + [Check]);
    RunCons(p, a, ParentDone, [Check]);
    RunCons(p, b, Check, []);
  }

  /** An invalid configuration is never past its check. */
  predicate AtEnds(pc: Pc) { pc.Start? || Returns(pc) }

  lemma {:induction false} InvalidStays(p: Params, s: State, events: seq<Event>)
    requires !p.valid && AtEnds(s.pc) && Run(p, s, events).Some?
    ensures AtEnds(Run(p, s, events).value.pc)
    decreases |events|
  {
    if events != [] {
      InvalidStays(p, Step(p, s, events[0]).value, events[1..]);
    }
  }

  lemma {:induction false} Ending(p: Params, s: State) returns (way: seq<Event>)
    requires AtEnds(s.pc) && (s.pc.Start? ==> !p.valid) && (s.pc.Finished? ==> s.report == Paused)
    ensures |way| <= 2 && Unaided(way)
    ensures Run(p, s, way).Some? && Run(p, s, way).value.pc.Finished? && Run(p, s, way).value.report == Paused
  {
    hide Run, RefreshStep, ProbeStep, EnvStep;
    if s.pc.Finished? {
      way := [];
      RunNone(p, s);
    } else if s.pc.Returning? {
      way := [Check];
      RunCons(p, s, Check, []);
    } else {
      way := [Check] + [Check];
      RunCons(p, s, Check, [Check]);
      RunCons(p, Step(p, s, Check).value, Check, []);
    }
  }

  lemma {:induction false} EndIsPaused(p: Params, s: State)
    requires Inv(p, s) && s.pc.Finished?
    ensures s.report == Paused
  {}
}
