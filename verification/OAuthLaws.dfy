/**
 What holds over every run of one OAuth session manager: the lease discipline, the bounds on the
 session store, and that a session which was reported finished is never submitted to again.
 */
module OAuthLaws {

  import opened OAuth
  import opened Wrappers

  // ----- Requests and runs --------------------------------------------------------

  datatype Request =
    | Providers(env: Env)
    | Start(provider: string, kind: Kind, env: Env, started: StartAnswer)
    | Status(id: string, env: Env, status: Option<OAuth.Status>)
    | Submit(id: string, env: Env, input: Option<seq<int>>, accepted: bool)
    | Cancel(id: string, env: Env, accepted: bool)

  function After(s: State, q: Request): State {
    match q
    case Providers(env) => s.(log := s.log + LeaseLog(env, [CallProviders]))
    case Start(provider, kind, env, started) => StartStep(s, provider, kind, env, started).state
    case Status(id, env, status) => StatusStep(s, id, env, status).state
    case Submit(id, env, input, accepted) => SubmitStep(s, id, input, env, accepted).state
    case Cancel(id, env, accepted) => CancelStep(s, id, env, accepted).state
  }

  function ReceiptOf(s: State, q: Request): Result<Receipt, OpError> {
    match q
    case Providers(_) => Err(InvalidRequest)
    case Start(provider, kind, env, started) => StartStep(s, provider, kind, env, started).result
    case Status(id, env, status) => StatusStep(s, id, env, status).result
    case Submit(id, env, input, accepted) => SubmitStep(s, id, input, env, accepted).result
    case Cancel(id, env, accepted) => CancelStep(s, id, env, accepted).result
  }

  /** The clock does not run backwards and a start reads the directory that is there. */
  predicate Possible(s: State, last: int, q: Request) {
    last <= q.env.now && (q.Start? ==> Lists(q.env, s.store))
  }

  ghost predicate RunOk(s: State, last: int, requests: seq<Request>)
    decreases |requests|
  {
    requests == [] ||
    (Possible(s, last, requests[0]) && RunOk(After(s, requests[0]), requests[0].env.now, requests[1..]))
  }

  function Run(s: State, requests: seq<Request>): State
    decreases |requests|
  {
    if requests == [] then s else Run(After(s, requests[0]), requests[1..])
  }

  // ----- The lease ------------------------------------------------------------------

  /**
   A lease is taken only when none is held, given back only when one is held, every API call is
   made while one is held, and none is left at the end.
   */
  predicate Disciplined(log: seq<Event>, held: bool) {
    if log == [] then !held
    else
      match log[0]
      case Acquire => !held && Disciplined(log[1..], true)
      case Release => held && Disciplined(log[1..], false)
      case _ => held && Disciplined(log[1..], held)
  }

  function Count(log: seq<Event>, e: Event): nat {
    if log == [] then 0 else (if log[0] == e then 1 else 0) + Count(log[1..], e)
  }

  predicate IsCall(e: Event) { !e.Acquire? && !e.Release? }

  predicate AllCalls(calls: seq<Event>) { forall i :: 0 <= i < |calls| ==> IsCall(calls[i]) }

  lemma {:induction false} DisciplinedAppend(a: seq<Event>, b: seq<Event>, held: bool)
    requires Disciplined(a, held) && Disciplined(b, false)
    ensures Disciplined(a + b, held)
  {
    if a == [] {
      assert a + b == b;
    } else {
      assert (a + b)[1..] == a[1..] + b;
      DisciplinedAppend(a[1..], b, if a[0].Acquire? then true else if a[0].Release? then false else held);
    }
  }

  lemma {:induction false} CallsInsideLease(calls: seq<Event>)
    requires AllCalls(calls)
    ensures Disciplined(calls + [Release], true)
  {
    if calls == [] {
      assert calls + [Release] == [Release];
      assert [Release][1..] == [];
    } else {
      assert IsCall(calls[0]);
      assert (calls + [Release])[1..] == calls[1..] + [Release];
      CallsInsideLease(calls[1..]);
    }
  }

  lemma {:induction false} LeaseLogDisciplined(env: Env, calls: seq<Event>)
    requires AllCalls(calls)
    ensures Disciplined(LeaseLog(env, calls), false)
  {
    CallsInsideLease(calls);
    CallsInsideLease([]);
    assert ([Acquire] + calls + [Release])[1..] == calls + [Release];
    assert [Acquire, Release][1..] == [] + [Release];
  }

  /** What one request adds to the log: nothing, or the log of one lease around API calls. */
  ghost predicate Adds(q: Request, before: seq<Event>, after: seq<Event>) {
    exists calls :: AllCalls(calls) && (after == before || after == before + LeaseLog(q.env, calls))
  }

  lemma {:induction false} RequestAdds(s: State, q: Request)
    ensures Adds(q, s.log, After(s, q).log)
  {
    hide Load, Cleanup, ActiveFrom, Admission, LeaseLog, ValidStart, ValidSession, ValidIdentity, Expired;
    assert AllCalls([]);
    match q
    case Providers(_) => assert AllCalls([CallProviders]);
    case Start(provider, _, _, _) =>
      assert AllCalls([CallStart(provider)]);
      assert AllCalls([CallStart(provider)] + [CallCancelFlow]);
    case Status(id, _, _) => assert AllCalls([CallStatus(id)]);
    case Submit(id, _, _, _) => assert AllCalls([CallSubmit(id)]);
    case Cancel(id, _, _) => assert AllCalls([CallCancel(id)]);
  }

  /** Whatever the outside does, the log of a run keeps the lease discipline. */
  lemma {:induction false} LeaseDiscipline(s: State, requests: seq<Request>)
    requires Disciplined(s.log, false)
    ensures Disciplined(Run(s, requests).log, false)
    decreases |requests|
  {
    hide After, LeaseLog, Disciplined;
    if requests != [] {
      var q := requests[0];
      RequestAdds(s, q);
      var calls :| AllCalls(calls) && (After(s, q).log == s.log || After(s, q).log == s.log + LeaseLog(q.env, calls));
      LeaseLogDisciplined(q.env, calls);
      DisciplinedAppend(s.log, LeaseLog(q.env, calls), false);
      LeaseDiscipline(After(s, q), requests[1..]);
    }
  }

  /** In a disciplined log the lease is given back exactly as often as it is taken. */
  lemma {:induction false} ReleasedAsOftenAsTaken(log: seq<Event>, held: bool)
    requires Disciplined(log, held)
    ensures Count(log, Release) == Count(log, Acquire) + (if held then 1 else 0)
  {
    if log != [] {
      ReleasedAsOftenAsTaken(log[1..], if log[0].Acquire? then true else if log[0].Release? then false else held);
    }
  }

  // ----- The store --------------------------------------------------------------------

  predicate Sound(store: map<string, Session>, last: int) {
    forall id :: id in store ==> ValidSession(store[id]) && store[id].id == id && store[id].createdAt <= last
  }

  predicate OneFlowPerProvider(store: map<string, Session>) {
    forall a, b :: a in store && b in store && a != b && store[a].kind == Generic && store[b].kind == Generic
      ==> store[a].provider != store[b].provider
  }

  predicate Bounded(store: map<string, Session>) { |store| <= MAXIMUM_SESSIONS }

  predicate Inv(store: map<string, Session>, last: int) {
    Sound(store, last) && OneFlowPerProvider(store) && Bounded(store)
  }

  predicate Within(small: map<string, Session>, large: map<string, Session>) {
    forall id :: id in small ==> id in large && small[id] == large[id]
  }

  lemma {:induction false} WithinSize(small: map<string, Session>, large: map<string, Session>)
    requires Within(small, large)
    ensures |small| <= |large|
    decreases |small.Keys|
  {
    if id :| id in small {
      assert small.Keys - {id} == (small - {id}).Keys;
      assert large.Keys - {id} == (large - {id}).Keys;
      WithinSize(small - {id}, large - {id});
      assert |(small - {id}).Keys| == |small.Keys| - 1;
      assert |(large - {id}).Keys| == |large.Keys| - 1;
    } else {
      assert small == map[];
    }
  }

  lemma {:induction false} InvWithin(small: map<string, Session>, large: map<string, Session>, last: int, now: int)
    requires Inv(large, last) && Within(small, large) && last <= now
    ensures Inv(small, now)
  {
    hide ValidSession;
    WithinSize(small, large);
  }

  predicate Distinct(ids: seq<string>) {
    forall i, j :: 0 <= i < j < |ids| ==> ids[i] != ids[j]
  }

  /** One session less. */
  lemma {:induction false} RemoveOne(store: map<string, Session>, id: string)
    requires id in store
    ensures |store - {id}| == |store| - 1 && Within(store - {id}, store)
  {
    var less := store - {id};
    assert less.Keys == store.Keys - {id};
    assert |less.Keys| == |store.Keys| - 1;
  }

  /** Cleaning only removes, and on success every listed session was kept and counted or removed. */
  lemma {:induction false} CleanupKeeps(store: map<string, Session>, ids: seq<string>, active: nat, env: Env)
    requires Distinct(ids) && forall i :: 0 <= i < |ids| ==> ids[i] in store
    ensures var c := CleanupFrom(store, ids, active, env);
            Within(c.store, store) && (c.active.Ok? ==> |c.store| + |ids| + active == |store| + c.active.value)
    decreases |ids|
  {
    hide Load, Expired;
    if ids != [] {
      var rest := ids[1..];
      assert forall i :: 0 <= i < |rest| ==> rest[i] == ids[i + 1];
      assert forall i :: 0 < i < |ids| ==> ids[0] != ids[i];
      RemoveOne(store, ids[0]);
      CleanupKeeps(store - {ids[0]}, rest, active, env);
      CleanupKeeps(store, rest, active + 1, env);
    }
  }

  lemma {:induction false} ListingSize(ids: seq<string>, keys: set<string>)
    requires Distinct(ids) && (forall i :: 0 <= i < |ids| ==> ids[i] in keys) && (forall id :: id in keys ==> id in ids)
    ensures |ids| == |keys|
    decreases |ids|
  {
    if ids == [] {
      assert keys == {};
    } else {
      var rest := ids[1..];
      var fewer := keys - {ids[0]};
      assert forall i :: 0 <= i < |rest| ==> rest[i] == ids[i + 1];
      assert forall i :: 0 < i < |ids| ==> ids[0] != ids[i];
      forall id | id in fewer
        ensures id in rest
      {
        var k :| 0 <= k < |ids| && ids[k] == id;
        assert rest[k - 1] == id;
      }
      ListingSize(rest, fewer);
    }
  }

  /** After a cleaning that succeeds there is room for one more session. */
  lemma {:induction false} CleanupMakesRoom(store: map<string, Session>, env: Env)
    requires Lists(env, store)
    ensures var c := Cleanup(store, env); Within(c.store, store) && (c.active.Ok? ==> |c.store| < MAXIMUM_SESSIONS)
  {
    hide CleanupFrom;
    CleanupKeeps(store, env.listing, 0, env);
    ListingSize(env.listing, store.Keys);
  }

  /** An answer of `false` means no stored generic session of that provider. */
  lemma {:induction false} NoActiveFlow(store: map<string, Session>, ids: seq<string>, provider: string, env: Env)
    requires ActiveFrom(store, ids, provider, env) == Ok(false)
    ensures forall id :: id in store && id in ids ==> !(store[id].kind == Generic && store[id].provider == provider)
    decreases |ids|
  {
    hide IsSha256, ValidSession;
    if ids != [] {
      NoActiveFlow(store, ids[1..], provider, env);
      forall id | id in store && id in ids
        ensures !(store[id].kind == Generic && store[id].provider == provider)
      {
        if id != ids[0] {
          var k :| 0 <= k < |ids| && ids[k] == id;
          assert ids[1..][k - 1] == id;
        }
      }
    }
  }

  /** Adding a session to a store that has room and no such flow. */
  lemma {:induction false} InvAdd(store: map<string, Session>, session: Session, now: int)
    requires Inv(store, now) && |store| < MAXIMUM_SESSIONS
    requires ValidSession(session) && session.createdAt <= now
    requires session.kind == Generic ==>
               forall id :: id in store ==> !(store[id].kind == Generic && store[id].provider == session.provider)
    ensures Inv(store[session.id := session], now)
  {
    hide ValidSession, Sound, OneFlowPerProvider;
    SoundAdd(store, session, now);
    FlowAdd(store, session);
    var more := store[session.id := session];
    assert more.Keys == store.Keys + {session.id};
    assert |more.Keys| <= |store.Keys| + 1;
  }

  lemma {:induction false} SoundAdd(store: map<string, Session>, session: Session, now: int)
    requires Sound(store, now) && ValidSession(session) && session.createdAt <= now
    ensures Sound(store[session.id := session], now)
  {
    hide ValidSession;
  }

  lemma {:induction false} FlowAdd(store: map<string, Session>, session: Session)
    requires OneFlowPerProvider(store)
    requires session.kind == Generic ==>
               forall id :: id in store ==> !(store[id].kind == Generic && store[id].provider == session.provider)
    ensures OneFlowPerProvider(store[session.id := session])
  {
  }

  lemma {:induction false} StartKeepsInv(s: State, last: int, q: Request)
    requires Inv(s.store, last) && Possible(s, last, q) && q.Start?
    ensures Inv(After(s, q).store, q.env.now)
  {
    hide Cleanup, ActiveFrom, Admission, LeaseLog, ValidStart, ValidSession, ValidIdentity, Inv;
    var c := Cleanup(s.store, q.env);
    CleanupMakesRoom(s.store, q.env);
    InvWithin(s.store, s.store, last, q.env.now);
    InvWithin(c.store, s.store, last, q.env.now);
    var active := if q.kind == Generic then ActiveFrom(c.store, q.env.listing, q.provider, q.env) else Ok(false);
    if c.active.Ok? && active.Ok? && !active.value {
      assert active == Ok(false);
      if q.kind == Generic {
        NoActiveFlow(c.store, q.env.listing, q.provider, q.env);
      }
      if q.started.flow.Some? && q.started.id.Some? {
        var session := Session(q.started.id.value, q.provider, q.kind, q.started.flow.value.flowId, q.env.now);
        if ValidSession(session) {
          InvAdd(c.store, session, q.env.now);
        }
      }
    }
  }

  /** Every other request leaves the store or takes the named session out of it. */
  lemma {:induction false} OthersOnlyRemove(s: State, q: Request)
    requires !q.Start?
    ensures After(s, q).store == s.store || (!q.Providers? && After(s, q).store == s.store - {q.id})
    ensures Within(After(s, q).store, s.store)
  {
    hide Load, Admission, LeaseLog, Expired;
  }

  lemma {:induction false} RequestKeepsInv(s: State, last: int, q: Request)
    requires Inv(s.store, last) && Possible(s, last, q)
    ensures Inv(After(s, q).store, q.env.now)
  {
    hide After, Inv;
    if q.Start? {
      StartKeepsInv(s, last, q);
    } else {
      OthersOnlyRemove(s, q);
      InvWithin(After(s, q).store, s.store, last, q.env.now);
    }
  }

  function LastNow(last: int, requests: seq<Request>): int {
    if requests == [] then last else requests[|requests| - 1].env.now
  }

  /** The state a run reaches after its first requests, and that the rest is a run from there. */
  lemma {:induction false} RunPrefix(s: State, last: int, requests: seq<Request>, k: nat)
    requires RunOk(s, last, requests) && k <= |requests|
    ensures RunOk(Run(s, requests[..k]), LastNow(last, requests[..k]), requests[k..])
    ensures Run(s, requests) == Run(Run(s, requests[..k]), requests[k..])
    ensures RunOk(s, last, requests[..k])
    decreases |requests|
  {
    hide After, Possible;
    if k == 0 {
      assert requests[k..] == requests && requests[..k] == [];
    } else {
      var rest := requests[1..];
      RunPrefix(After(s, requests[0]), requests[0].env.now, rest, k - 1);
      assert requests[..k][1..] == rest[..k - 1];
      assert requests[k..] == rest[k - 1..];
      assert requests[..k][0] == requests[0];
      assert LastNow(last, requests[..k]) == LastNow(requests[0].env.now, rest[..k - 1]);
    }
  }

  lemma {:induction false} RunKeepsInv(s: State, last: int, requests: seq<Request>)
    requires Inv(s.store, last) && RunOk(s, last, requests)
    ensures Inv(Run(s, requests).store, LastNow(last, requests))
    decreases |requests|
  {
    hide After, Inv, Possible;
    if requests != [] {
      RequestKeepsInv(s, last, requests[0]);
      RunKeepsInv(After(s, requests[0]), requests[0].env.now, requests[1..]);
    }
  }

  /**
   Over every run from an empty store, all stored sessions are valid and filed under their own
   id, there are at most 64, and no two generic sessions share a provider.
   */
  lemma {:induction false} EveryRunIsSound(last: int, requests: seq<Request>)
    requires RunOk(State(map[], []), last, requests)
    ensures var store := Run(State(map[], []), requests).store;
            && |store| <= 64
            && (forall id :: id in store ==> ValidSession(store[id]) && store[id].id == id)
            && (forall a, b :: a in store && b in store && a != b && store[a].kind == store[b].kind == Generic ==>
                  store[a].provider != store[b].provider)
  {
    hide Run, RunOk, ValidSession;
    RunKeepsInv(State(map[], []), last, requests);
  }

  // ----- Finished sessions ------------------------------------------------------------

  /** The session is gone, or too old for ever. */
  predicate Dead(store: map<string, Session>, id: string, last: int) {
    id in store ==> last - store[id].createdAt > MAXIMUM_AGE_SECONDS
  }

  predicate Finished(r: Result<Receipt, OpError>, id: string) {
    r.Ok? && r.value.id == id && Terminal(r.value.status)
  }

  /** A complete, failed or cancelled receipt is only given for a session that is then dead. */
  lemma {:induction false} FinishedIsDead(s: State, last: int, q: Request, id: string)
    requires Inv(s.store, last) && Possible(s, last, q) && Finished(ReceiptOf(s, q), id)
    ensures Dead(After(s, q).store, id, q.env.now)
  {
    hide Cleanup, ActiveFrom, Admission, LeaseLog, ValidStart, ValidSession, ValidIdentity, IsSha256,
      OneFlowPerProvider, Bounded;
  }

  predicate Fresh(requests: seq<Request>, id: string) {
    forall i :: 0 <= i < |requests| && requests[i].Start? ==> requests[i].started.id != Some(id)
  }

  lemma {:induction false} DeadStays(s: State, last: int, q: Request, id: string)
    requires Inv(s.store, last) && Possible(s, last, q) && Dead(s.store, id, last)
    requires q.Start? ==> q.started.id != Some(id)
    ensures Dead(After(s, q).store, id, q.env.now)
  {
    hide Load, Cleanup, ActiveFrom, Admission, LeaseLog, ValidStart, ValidSession, ValidIdentity, Expired, Inv;
    if q.Start? {
      CleanupMakesRoom(s.store, q.env);
    } else {
      hide After;
      OthersOnlyRemove(s, q);
    }
  }

  predicate Asks(e: Event, id: string) { e == CallSubmit(id) || e == CallStatus(id) }

  /** The later log continues the earlier one without a submission or status query for `id`. */
  predicate Silent(before: seq<Event>, log: seq<Event>, id: string) {
    before <= log && forall i :: |before| <= i < |log| ==> !Asks(log[i], id)
  }

  lemma {:induction false} LeaseIsSilent(before: seq<Event>, env: Env, calls: seq<Event>, id: string)
    requires forall i :: 0 <= i < |calls| ==> !Asks(calls[i], id)
    ensures Silent(before, before + LeaseLog(env, calls), id)
  {
    hide Admission;
  }

  /** For a dead session neither a submission nor a status query reaches the management API. */
  lemma {:induction false} DeadIsSilent(s: State, last: int, q: Request, id: string)
    requires Possible(s, last, q) && Dead(s.store, id, last)
    ensures Silent(s.log, After(s, q).log, id)
  {
    hide Cleanup, ActiveFrom, ValidStart, ValidSession, ValidIdentity, IsSha256, LeaseLog, Admission;
    LeaseIsSilent(s.log, q.env, [], id);
    match q
    case Providers(env) => LeaseIsSilent(s.log, env, [CallProviders], id);
    case Start(provider, _, env, _) =>
      LeaseIsSilent(s.log, env, [CallStart(provider)], id);
      LeaseIsSilent(s.log, env, [CallStart(provider)] + [CallCancelFlow], id);
    case Status(other, env, _) => if other != id { LeaseIsSilent(s.log, env, [CallStatus(other)], id); }
    case Submit(other, env, _, _) => if other != id { LeaseIsSilent(s.log, env, [CallSubmit(other)], id); }
    case Cancel(other, env, _) => LeaseIsSilent(s.log, env, [CallCancel(other)], id);
  }

  lemma {:induction false} DeadRun(s: State, last: int, requests: seq<Request>, id: string)
    requires Inv(s.store, last) && RunOk(s, last, requests) && Dead(s.store, id, last) && Fresh(requests, id)
    ensures Silent(s.log, Run(s, requests).log, id)
    decreases |requests|
  {
    hide After, Inv, Dead, Asks;
    if requests != [] {
      var q, rest := requests[0], requests[1..];
      assert forall i :: 0 <= i < |rest| ==> rest[i] == requests[i + 1];
      assert Possible(s, last, q);
      RequestKeepsInv(s, last, q);
      DeadStays(s, last, q, id);
      DeadIsSilent(s, last, q, id);
      DeadRun(After(s, q), q.env.now, rest, id);
    }
  }

  /**
   Over every run from an empty store: once a request was answered with a complete, failed or
   cancelled receipt for an id, and as long as no later start draws that id again, no later
   submission or status query for it reaches the management API.
   */
  lemma {:induction false} NoSubmitAfterFinish(last: int, requests: seq<Request>, k: nat, id: string)
    requires RunOk(State(map[], []), last, requests) && k < |requests|
    requires Finished(ReceiptOf(Run(State(map[], []), requests[..k]), requests[k]), id)
    requires Fresh(requests[k + 1..], id)
    ensures var before := Run(State(map[], []), requests[..k + 1]).log;
            var log := Run(State(map[], []), requests).log;
            before <= log && forall i :: |before| <= i < |log| ==> log[i] != CallSubmit(id) && log[i] != CallStatus(id)
  {
    hide After, Run, ReceiptOf, Inv, Dead, Fresh, Finished, Possible;
    var s0 := State(map[], []);
    assert Inv(s0.store, last) by { EmptyInv(last); }
    RunPrefix(s0, last, requests, k);
    RunKeepsInv(s0, last, requests[..k]);
    var s, now := Run(s0, requests[..k]), LastNow(last, requests[..k]);
    assert requests[k..][0] == requests[k];
    assert Possible(s, now, requests[k]);
    FinishedIsDead(s, now, requests[k], id);
    RunPrefix(s0, last, requests, k + 1);
    RunKeepsInv(s0, last, requests[..k + 1]);
    RunSnoc(s0, requests, k);
    assert LastNow(last, requests[..k + 1]) == requests[k].env.now;
    DeadRun(After(s, requests[k]), requests[k].env.now, requests[k + 1..], id);
  }

  lemma {:induction false} EmptyInv(last: int)
    ensures Inv(map[], last)
  {
  }

  lemma {:induction false} RunSnoc(s: State, requests: seq<Request>, k: nat)
    requires k < |requests|
    ensures Run(s, requests[..k + 1]) == After(Run(s, requests[..k]), requests[k])
    decreases k
  {
    hide After;
    if k == 0 {
      assert requests[..1][1..] == [];
      assert requests[..0] == [];
    } else {
      RunSnoc(After(s, requests[0]), requests[1..], k - 1);
      assert requests[..k + 1][1..] == requests[1..][..k];
      assert requests[..k][1..] == requests[1..][..k - 1];
    }
  }

  // ----- What an answer says about the management API -----------------------------------

  /** Once the lease is granted, the API has opened this flow for the request. */
  predicate FlowOpened(s: State, q: Request) {
    && q.Start? && q.started.flow.Some? && ValidStart(q.provider, q.kind) && Admission(q.env).Ok?
    && Cleanup(s.store, q.env).active.Ok?
    && (q.kind == Generic ==> ActiveFrom(Cleanup(s.store, q.env).store, q.env.listing, q.provider, q.env) == Ok(false))
  }

  predicate Acceptable(q: Request)
    requires q.Start? && q.started.flow.Some?
  {
    var flow := q.started.flow.value;
    && ValidIdentity(flow.provider, flow.kind, flow.flowId)
    && flow.provider == q.provider && flow.kind == q.kind && flow.presentable
  }

  predicate CancelsFlow(before: seq<Event>, log: seq<Event>) {
    before <= log && CallCancelFlow in log[|before|..]
  }

  /**
   A flow the API opened is answered with a receipt and kept under its id, or closed again:
   exactly when the flow is acceptable and an id could be drawn. Otherwise it stays open upstream,
   known to nobody.
   */
  lemma {:induction false} FlowIsKeptOrClosed(s: State, q: Request)
    requires FlowOpened(s, q)
    ensures ReceiptOf(s, q).Ok? || CancelsFlow(s.log, After(s, q).log) <==> Acceptable(q) && q.started.id.Some?
    ensures ReceiptOf(s, q).Ok? ==> !CancelsFlow(s.log, After(s, q).log)
    ensures ReceiptOf(s, q).Ok? ==>
              var id := ReceiptOf(s, q).value.id;
              && q.started.id == Some(id) && id in After(s, q).store && id !in Cleanup(s.store, q.env).store
              && After(s, q).store[id] == Session(id, q.provider, q.kind, q.started.flow.value.flowId, q.env.now)
  {
    hide Cleanup, ActiveFrom, ValidStart, ValidSession, ValidIdentity, IsSha256;
    var call := [CallStart(q.provider)];
    StartedLog(s.log, q.env, call);
    StartedLog(s.log, q.env, call + [CallCancelFlow]);
    assert CallCancelFlow !in call;
    assert CallCancelFlow in call + [CallCancelFlow] by { assert (call + [CallCancelFlow])[1] == CallCancelFlow; }
  }

  function ExampleStart(flow: Flow, id: Option<string>): Request {
    Start("a", Generic,
          Env(1, [], true, map[], {}, true, Keychain(true, true, [1], [2])),
          StartAnswer(Some(flow), id, Saved))
  }

  /** Two flows that stay open: one for which no id is drawn, and one that is not acceptable. */
  lemma {:induction false} OpenFlowExample(id: string)
    ensures var s := State(map[], []);
            var unnamed := ExampleStart(Flow("a", Generic, "", true), None);
            var unshowable := ExampleStart(Flow("a", Generic, "", false), Some(id));
            && FlowOpened(s, unnamed) && FlowOpened(s, unshowable)
            && ReceiptOf(s, unnamed).Err? && !CancelsFlow(s.log, After(s, unnamed).log)
            && ReceiptOf(s, unshowable).Err? && !CancelsFlow(s.log, After(s, unshowable).log)
  {
    hide After, ReceiptOf, CancelsFlow;
    var s := State(map[], []);
    var unnamed := ExampleStart(Flow("a", Generic, "", true), None);
    var unshowable := ExampleStart(Flow("a", Generic, "", false), Some(id));
    assert [1][0] != [2][0];
    assert FlowOpened(s, unnamed) && FlowOpened(s, unshowable);
    FlowIsKeptOrClosed(s, unnamed);
    FlowIsKeptOrClosed(s, unshowable);
  }

  lemma {:induction false} StartedLog(before: seq<Event>, env: Env, calls: seq<Event>)
    requires Admission(env).Ok?
    ensures CancelsFlow(before, before + LeaseLog(env, calls)) <==> CallCancelFlow in calls
  {
    var log := before + LeaseLog(env, calls);
    assert log[|before|..] == [Acquire] + calls + [Release];
  }

  /** A receipt is backed by exactly the API call it reports on, made inside one lease. */
  lemma {:induction false} ReceiptMeansCall(s: State, q: Request)
    requires ReceiptOf(s, q).Ok? && !q.Start?
    ensures q.Cancel? ==>
              q.accepted && After(s, q) == State(s.store - {q.id}, s.log + LeaseLog(q.env, [CallCancel(q.id)]))
    ensures q.Submit? ==> After(s, q) == State(s.store, s.log + LeaseLog(q.env, [CallSubmit(q.id)])) && q.accepted
    ensures q.Status? ==>
              q.id in s.store &&
              if Expired(s.store[q.id], q.env.now) then
                ReceiptOf(s, q).value.status == OAuth.Failed && After(s, q).log == s.log
              else
                && q.status == Some(ReceiptOf(s, q).value.status)
                && After(s, q).log == s.log + LeaseLog(q.env, [CallStatus(q.id)])
                && (q.id in After(s, q).store <==> ReceiptOf(s, q).value.status == OAuth.Pending)
    ensures q.id in s.store && ReceiptOf(s, q).value.provider == s.store[q.id].provider &&
        ReceiptOf(s, q).value.id == q.id
    ensures (q.Status? && Expired(s.store[q.id], q.env.now)) || Admission(q.env).Ok?
  {
    hide Admission, LeaseLog, ValidSession, IsSha256;
  }

  lemma {:induction false} StartReceiptMeansCall(s: State, q: Request)
    requires ReceiptOf(s, q).Ok? && q.Start?
    ensures Admission(q.env).Ok? && After(s, q).log == s.log + LeaseLog(q.env, [CallStart(q.provider)])
  {
    hide Admission, LeaseLog, ValidSession, IsSha256, Cleanup, ActiveFrom, ValidStart, ValidIdentity;
  }

  /** The API call a receipt for this request reports on. */
  function CallOf(q: Request): Event {
    match q
    case Providers(_) => CallProviders
    case Start(provider, _, _, _) => CallStart(provider)
    case Status(id, _, _) => CallStatus(id)
    case Submit(id, _, _, _) => CallSubmit(id)
    case Cancel(id, _, _) => CallCancel(id)
  }

  lemma {:induction false} LogGrows(s: State, requests: seq<Request>)
    ensures s.log <= Run(s, requests).log
    decreases |requests|
  {
    hide After, LeaseLog;
    if requests != [] {
      RequestAdds(s, requests[0]);
      LogGrows(After(s, requests[0]), requests[1..]);
    }
  }

  lemma {:induction false} RunSplit(s: State, requests: seq<Request>, k: nat)
    requires k <= |requests|
    ensures Run(s, requests) == Run(Run(s, requests[..k]), requests[k..])
    decreases k
  {
    hide After;
    if k == 0 {
      assert requests[..0] == [] && requests[0..] == requests;
    } else {
      RunSplit(After(s, requests[0]), requests[1..], k - 1);
      assert requests[..k][1..] == requests[1..][..k - 1] && requests[k..] == requests[1..][k - 1..];
    }
  }

  /**
   Over every run: each receipt, except the one for an expired session, is backed by its own API
   call in the log, made right after its lease was taken and right before it was given back.
   */
  lemma {:induction false} ReceiptsAreBacked(s0: State, requests: seq<Request>, k: nat)
    requires k < |requests|
    requires var s := Run(s0, requests[..k]); var q := requests[k];
             ReceiptOf(s, q).Ok? && (q.Status? && q.id in s.store ==> !Expired(s.store[q.id], q.env.now))
    ensures var n, log := |Run(s0, requests[..k]).log|, Run(s0, requests).log;
            n + 3 <= |log| && log[n..n + 3] == [Acquire, CallOf(requests[k]), Release]
  {
    hide After, Run, Admission, Expired, StartStep, StatusStep, SubmitStep, CancelStep;
    var s, q := Run(s0, requests[..k]), requests[k];
    if q.Start? {
      StartReceiptMeansCall(s, q);
    } else {
      ReceiptMeansCall(s, q);
    }
    assert After(s, q).log == s.log + LeaseLog(q.env, [CallOf(q)]);
    assert LeaseLog(q.env, [CallOf(q)]) == [Acquire, CallOf(q), Release] by { AdmittedLog(q.env, CallOf(q)); }
    RunSnoc(s0, requests, k);
    RunSplit(s0, requests, k + 1);
    LogGrows(After(s, q), requests[k + 1..]);
    var n, log := |s.log|, Run(s0, requests).log;
    assert log[n..n + 3] == After(s, q).log[n..n + 3];
  }

  lemma {:induction false} AdmittedLog(env: Env, call: Event)
    requires Admission(env).Ok?
    ensures LeaseLog(env, [call]) == [Acquire, call, Release]
  {
  }
}
