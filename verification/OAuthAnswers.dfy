/**
 What the OAuth session manager answers, in terms a caller can check: which sessions a cleanup
 takes away and when it succeeds, exactly when a start is granted, and that a granted session can
 be used until it is finished or too old.
 */
module OAuthAnswers {

  import opened OAuth
  import opened OAuthLaws
  import opened Wrappers

  // ----- Cleaning -------------------------------------------------------------------

  /** The sessions that are still of an age to be used. */
  function Live(store: map<string, Session>, now: int): map<string, Session> {
    map id | id in store && !Expired(store[id], now) :: store[id]
  }

  /** The file of this session can be read, and removed if it has to be. */
  predicate Manageable(store: map<string, Session>, id: string, env: Env)
    requires id in store
  {
    Load(store, id, env).Ok? && (Expired(store[id], env.now) ==> id !in env.stuck)
  }

  lemma {:induction false} LoadElsewhere(store: map<string, Session>, gone: string, id: string, env: Env)
    requires gone != id
    ensures Load(store - {gone}, id, env) == Load(store, id, env)
  {
    hide IsSha256, ValidSession;
  }

  lemma {:induction false} LoadGives(store: map<string, Session>, id: string, env: Env)
    ensures Load(store, id, env).Ok? ==> id in store && Load(store, id, env).value == store[id]
  {
    hide IsSha256, ValidSession;
  }

  /** A cleanup over listed sessions succeeds exactly when each of them is manageable. */
  lemma {:induction false} CleanupSucceeds(store: map<string, Session>, ids: seq<string>, active: nat, env: Env)
    requires Distinct(ids) && forall i :: 0 <= i < |ids| ==> ids[i] in store
    ensures CleanupFrom(store, ids, active, env).active.Ok? <==>
              forall i :: 0 <= i < |ids| ==> Manageable(store, ids[i], env)
    decreases |ids|
  {
    hide Load, Expired;
    if ids != [] {
      var id, rest, less := ids[0], ids[1..], store - {ids[0]};
      LoadGives(store, id, env);
      assert forall i :: 0 <= i < |rest| ==> rest[i] == ids[i + 1];
      assert forall i :: 0 < i < |ids| ==> ids[0] != ids[i];
      CleanupSucceeds(less, rest, active, env);
      CleanupSucceeds(store, rest, active + 1, env);
      forall i | 0 <= i < |rest|
        ensures Manageable(less, rest[i], env) <==> Manageable(store, rest[i], env)
      {
        LoadElsewhere(store, id, rest[i], env);
      }
      assert (forall i :: 0 <= i < |ids| ==> Manageable(store, ids[i], env)) <==>
             Manageable(store, id, env) && forall i :: 0 <= i < |rest| ==> Manageable(store, rest[i], env) by {
        assert forall i :: 0 < i < |ids| ==> ids[i] == rest[i - 1];
      }
    }
  }

  /** What a cleanup takes away is expired, and when it succeeds nothing expired that was listed is left. */
  lemma {:induction false} CleanupTakes(store: map<string, Session>, ids: seq<string>, active: nat, env: Env)
    requires Distinct(ids) && forall i :: 0 <= i < |ids| ==> ids[i] in store
    ensures var c := CleanupFrom(store, ids, active, env);
            && Within(c.store, store)
            && (forall id :: id in store && id !in c.store ==> id in ids && Expired(store[id], env.now))
            && (c.active.Ok? ==> forall id :: id in c.store && id in ids ==> !Expired(store[id], env.now))
    decreases |ids|
  {
    hide Load, Expired;
    if ids != [] {
      var id, rest, less := ids[0], ids[1..], store - {ids[0]};
      LoadGives(store, id, env);
      assert forall i :: 0 <= i < |rest| ==> rest[i] == ids[i + 1];
      assert forall i :: 0 < i < |ids| ==> ids[0] != ids[i];
      assert id in ids && forall x :: x in ids <==> x == id || x in rest by { InRest(ids); }
      CleanupTakes(less, rest, active, env);
      CleanupTakes(store, rest, active + 1, env);
    }
  }

  lemma {:induction false} InRest(ids: seq<string>)
    requires ids != []
    ensures ids[0] in ids && forall x :: x in ids <==> x == ids[0] || x in ids[1..]
  {
    assert ids == [ids[0]] + ids[1..];
  }

  /** Everything a cleanup of this store needs from the outside. */
  predicate Cleanable(store: map<string, Session>, env: Env) {
    && env.listed && |env.listing| <= 2 * MAXIMUM_SESSIONS
    && forall id :: id in store ==> id !in env.unreadable && (Expired(store[id], env.now) ==> id !in env.stuck)
  }

  /** The loop over a whole listing: live sessions stay, and a run to the end leaves and counts just those. */
  lemma {:induction false} LoopLeavesLive(store: map<string, Session>, env: Env)
    requires Lists(env, store)
    ensures var c := CleanupFrom(store, env.listing, 0, env); var live := Live(store, env.now);
            && Within(c.store, store) && Within(live, c.store)
            && (c.active.Ok? ==> c.store == live && c.active.value == |live|)
  {
    hide CleanupFrom, Expired;
    var c, live := CleanupFrom(store, env.listing, 0, env), Live(store, env.now);
    CleanupTakes(store, env.listing, 0, env);
    CleanupKeeps(store, env.listing, 0, env);
    ListingSize(env.listing, store.Keys);
    assert |store| == |store.Keys|;
    assert c.active.Ok? ==> c.store.Keys == live.Keys;
  }

  /**
   A cleanup never takes a live session. It leaves exactly the live ones when every file can be
   managed, and it succeeds exactly when then fewer than 64 are left; the count it reports is theirs.
   */
  lemma {:induction false} CleanupAnswers(store: map<string, Session>, last: int, env: Env)
    requires Sound(store, last) && Lists(env, store)
    ensures var c := Cleanup(store, env); var live := Live(store, env.now);
            && Within(c.store, store) && Within(live, c.store)
            && (Cleanable(store, env) ==> c.store == live)
            && (c.active.Ok? <==> Cleanable(store, env) && |live| < 64)
            && (c.active.Ok? ==> c.active.value == |live|)
  {
    hide CleanupFrom, Expired, Manageable, Live, Sound;
    CleanupSucceeds(store, env.listing, 0, env);
    LoopLeavesLive(store, env);
    AllManageable(store, last, env);
  }

  lemma {:induction false} AllManageable(store: map<string, Session>, last: int, env: Env)
    requires Sound(store, last) && Lists(env, store)
    ensures (forall i :: 0 <= i < |env.listing| ==> Manageable(store, env.listing[i], env)) <==>
              forall id :: id in store ==> id !in env.unreadable && (Expired(store[id], env.now) ==> id !in env.stuck)
  {
    hide Expired;
    forall id | id in store
      ensures Manageable(store, id, env) <==>
                id !in env.unreadable && (Expired(store[id], env.now) ==> id !in env.stuck)
    {
      assert ValidSession(store[id]) && store[id].id == id;
    }
    if forall i :: 0 <= i < |env.listing| ==> Manageable(store, env.listing[i], env) {
      forall id | id in store
        ensures Manageable(store, id, env)
      {
        var i :| 0 <= i < |env.listing| && env.listing[i] == id;
      }
    }
  }

  // ----- Starting -------------------------------------------------------------------

  predicate HasFlow(store: map<string, Session>, provider: string) {
    exists id :: id in store && store[id].kind == Generic && store[id].provider == provider
  }

  /** With every stored session readable, the search for a generic flow answers whether there is one. */
  lemma {:induction false} ActiveAnswers(store: map<string, Session>, ids: seq<string>, provider: string, env: Env)
    requires forall id :: id in store ==> Load(store, id, env).Ok?
    ensures ActiveFrom(store, ids, provider, env) ==
            Ok(exists id :: id in ids && id in store && store[id].kind == Generic && store[id].provider == provider)
    decreases |ids|
  {
    hide Load;
    if ids != [] {
      LoadGives(store, ids[0], env);
      InRest(ids);
      ActiveAnswers(store, ids[1..], provider, env);
    }
  }

  /** A granted start, in the caller's terms. */
  predicate Granted(store: map<string, Session>, q: Request)
    requires q.Start?
  {
    var live := Live(store, q.env.now);
    && ValidStart(q.provider, q.kind)
    && Cleanable(store, q.env) && |live| < 64
    && (q.kind == Generic ==> !HasFlow(live, q.provider))
    && Admission(q.env).Ok?
    && q.started.flow.Some? && Acceptable(q)
    && q.started.id.Some? && IsSha256(q.started.id.value) && q.started.id.value !in live
    && q.env.now > 0 && q.started.save == Saved
  }

  /** `Start` gives a receipt exactly when it is granted, and then the live sessions and the new one are stored. */
  lemma {:induction false} StartAnswers(s: State, last: int, q: Request)
    requires Inv(s.store, last) && Possible(s, last, q) && q.Start?
    ensures ReceiptOf(s, q).Ok? <==> Granted(s.store, q)
    ensures ReceiptOf(s, q).Ok? ==>
              var id := ReceiptOf(s, q).value.id;
              && ReceiptOf(s, q).value == Receipt(id, q.provider, q.kind, AwaitingUser)
              && After(s, q).store ==
                 Live(s.store, q.env.now)[id := Session(id, q.provider, q.kind, q.started.flow.value.flowId, q.env.now)]
  {
    hide Cleanup, ActiveFrom, ValidStart, ValidIdentity, IsSha256, Cleanable, LeaseLog, Admission, OneFlowPerProvider,
      Expired, Live, HasFlow;
    CleanupAnswers(s.store, last, q.env);
    if Cleanable(s.store, q.env) {
      FlowInLive(s.store, last, q.provider, q.env);
    }
  }

  lemma {:induction false} FlowInLive(store: map<string, Session>, last: int, provider: string, env: Env)
    requires Sound(store, last) && Lists(env, store) && Cleanable(store, env)
    ensures var live := Live(store, env.now);
            ActiveFrom(live, env.listing, provider, env) == Ok(HasFlow(live, provider))
  {
    hide ActiveFrom, Expired;
    var live := Live(store, env.now);
    forall id | id in live
      ensures Load(live, id, env).Ok? && id in env.listing
    {
      assert ValidSession(store[id]) && store[id].id == id;
    }
    ActiveAnswers(live, env.listing, provider, env);
  }

  // ----- A granted session can be used ---------------------------------------------------

  /** No request of the run is answered with a finished receipt for the session. */
  ghost predicate NeverFinished(s: State, requests: seq<Request>, id: string)
    decreases |requests|
  {
    requests == [] ||
    (!Finished(ReceiptOf(s, requests[0]), id) && NeverFinished(After(s, requests[0]), requests[1..], id))
  }

  lemma {:induction false} StartKeepsSession(s: State, last: int, q: Request, id: string)
    requires Sound(s.store, last) && Lists(q.env, s.store) && q.Start? && id in s.store
    requires last <= q.env.now && q.env.now - s.store[id].createdAt <= 900
    ensures id in After(s, q).store && After(s, q).store[id] == s.store[id]
  {
    hide Cleanup, ActiveFrom, Admission, LeaseLog, ValidStart, ValidSession, ValidIdentity, IsSha256, Sound, Lists;
    CleanupAnswers(s.store, last, q.env);
    assert id in Live(s.store, q.env.now) by { LiveYoung(s.store, last, q.env.now, id); }
  }

  lemma {:induction false} LiveYoung(store: map<string, Session>, last: int, now: int, id: string)
    requires Sound(store, last) && last <= now && id in store && now - store[id].createdAt <= 900
    ensures id in Live(store, now)
  {
    hide ValidSession;
  }

  /** One request keeps a session that is young enough and not reported finished. */
  lemma {:induction false} RequestKeepsSession(s: State, last: int, q: Request, id: string)
    requires Inv(s.store, last) && Possible(s, last, q) && id in s.store
    requires q.env.now - s.store[id].createdAt <= 900 && !Finished(ReceiptOf(s, q), id)
    ensures id in After(s, q).store && After(s, q).store[id] == s.store[id]
  {
    hide Cleanup, ActiveFrom, Admission, LeaseLog, ValidStart, ValidSession, ValidIdentity, IsSha256,
      OneFlowPerProvider, Bounded, StartStep;
    if q.Start? {
      hide After, ReceiptOf;
      StartKeepsSession(s, last, q, id);
    }
  }

  /** Over every run, a session lives until it is reported finished or is older than 900 seconds. */
  lemma {:induction false} SessionLives(s: State, last: int, requests: seq<Request>, id: string)
    requires Inv(s.store, last) && RunOk(s, last, requests) && id in s.store
    requires LastNow(last, requests) - s.store[id].createdAt <= 900 && NeverFinished(s, requests, id)
    ensures id in Run(s, requests).store && Run(s, requests).store[id] == s.store[id]
    decreases |requests|
  {
    hide After, Inv, Finished, ReceiptOf;
    if requests != [] {
      var q, rest := requests[0], requests[1..];
      ClockGrows(After(s, q), q.env.now, rest);
      assert LastNow(q.env.now, rest) == LastNow(last, requests);
      RequestKeepsSession(s, last, q, id);
      RequestKeepsInv(s, last, q);
      SessionLives(After(s, q), q.env.now, rest, id);
    }
  }

  lemma {:induction false} ClockGrows(s: State, last: int, requests: seq<Request>)
    requires RunOk(s, last, requests)
    ensures last <= LastNow(last, requests)
    decreases |requests|
  {
    hide After;
    if requests != [] {
      ClockGrows(After(s, requests[0]), requests[0].env.now, requests[1..]);
      assert LastNow(requests[0].env.now, requests[1..]) == LastNow(last, requests);
    }
  }

  /** The outside lets a request for this session through. */
  predicate Served(env: Env, id: string) { id !in env.unreadable && Admission(env).Ok? }

  /** The answer of the API that lets a request for a live session succeed. */
  predicate Welcome(q: Request)
    requires q.Submit? || q.Status? || q.Cancel?
  {
    match q
    case Submit(_, _, input, accepted) => input.Some? && accepted
    case Status(id, env, status) =>
      status == Some(Pending) || (status in {Some(Complete), Some(Failed)} && id !in env.stuck)
    case Cancel(id, env, accepted) => accepted && id !in env.stuck
    case _ => false
  }

  /**
   A request for a live session reaches the API whenever the outside lets it, and then the API's
   answer decides: the receipt names the session and its status, and the session is removed exactly
   when that status is final.
   */
  lemma {:induction false} LiveSessionIsServed(s: State, last: int, q: Request)
    requires Inv(s.store, last) && Possible(s, last, q) && (q.Submit? || q.Status? || q.Cancel?)
    requires q.id in s.store && q.env.now - s.store[q.id].createdAt <= 900 && Served(q.env, q.id)
    ensures q.Submit? && q.input.Some? ==> After(s, q).log == s.log + LeaseLog(q.env, [CallSubmit(q.id)])
    ensures q.Status? ==> After(s, q).log == s.log + LeaseLog(q.env, [CallStatus(q.id)])
    ensures q.Cancel? ==> After(s, q).log == s.log + LeaseLog(q.env, [CallCancel(q.id)])
    ensures ReceiptOf(s, q).Ok? <==> Welcome(q)
    ensures Welcome(q) ==>
              var session := s.store[q.id];
              var status := if q.Submit? then Pending else if q.Status? then q.status.value else Cancelled;
              && ReceiptOf(s, q) == Ok(Receipt(q.id, session.provider, session.kind, status))
              && After(s, q).store == if status == Pending then s.store else s.store - {q.id}
    ensures !Welcome(q) ==> After(s, q).store == s.store
  {
    hide Admission, LeaseLog, ValidIdentity, OneFlowPerProvider, Bounded, IsSha256;
    assert ValidSession(s.store[q.id]) && s.store[q.id].id == q.id;
  }

  /** A session over 900 seconds old is refused and dropped without asking the API. */
  lemma {:induction false} OldSessionIsDropped(s: State, last: int, q: Request)
    requires Inv(s.store, last) && Possible(s, last, q) && (q.Status? || (q.Submit? && q.input.Some?))
    requires q.id in s.store && q.env.now - s.store[q.id].createdAt > 900 && q.id !in q.env.unreadable
    ensures q.Submit? ==> ReceiptOf(s, q) == Err(InvalidRequest)
    ensures q.Status? ==>
              ReceiptOf(s, q) == Ok(Receipt(q.id, s.store[q.id].provider, s.store[q.id].kind, Failed))
    ensures After(s, q) == State(if q.id in q.env.stuck then s.store else s.store - {q.id}, s.log)
  {
    hide Admission, LeaseLog, ValidIdentity, OneFlowPerProvider, Bounded, IsSha256;
    assert ValidSession(s.store[q.id]) && s.store[q.id].id == q.id;
  }
}
