/**
 The OAuth session manager of the container runtime (`containerruntime/oauth.go`): its session
 store, its credential lease and its admin-token buffers. Everything the outside decides in one
 call (clock, file system, lease, keychain, management API, random id) is a parameter of it.
 */
module OAuth {

  import opened Wrappers

  datatype OpError =
    | InvalidRequest
    | UnsafeState
    | StateChanged
    | RecoveryRequired
    | Credential
    | ManagementApi
    | FileSystem

  datatype Kind = Generic | Codex
  datatype Status = Pending | AwaitingUser | Complete | Cancelled | Failed

  datatype Session = Session(id: string, provider: string, kind: Kind, flowId: string, createdAt: int)
  datatype Receipt = Receipt(id: string, provider: string, kind: Kind, status: Status)

  /** What the management API answers to a start: the flow, and whether its texts can be shown. */
  datatype Flow = Flow(provider: string, kind: Kind, flowId: string, presentable: bool)

  /** What the manager does to the outside, in order. */
  datatype Event =
    | Acquire
    | Release
    | CallProviders
    | CallStart(provider: string)
    | CallCancelFlow
    | CallStatus(id: string)
    | CallSubmit(id: string)
    | CallCancel(id: string)

  datatype State = State(store: map<string, Session>, log: seq<Event>)

  const MAXIMUM_SESSIONS := 64
  const MAXIMUM_AGE_SECONDS := 15 * 60
  const MAXIMUM_FLOW_ID := 256

  // ----- Validators -----------------------------------------------------------

  predicate IsSha256(id: string) {
    |id| == 64 && forall i :: 0 <= i < |id| ==> '0' <= id[i] <= '9' || 'a' <= id[i] <= 'f'
  }

  predicate ValidProvider(p: string) {
    && 0 < |p| <= 64
    && forall i :: 0 <= i < |p| ==>
         'a' <= p[i] <= 'z' || '0' <= p[i] <= '9' || (i > 0 && (p[i] == '-' || p[i] == '_'))
  }

  predicate ValidFlowId(f: string) {
    0 < |f| <= MAXIMUM_FLOW_ID && SafeText(f)
  }

  predicate SafeText(s: string) {
    forall i :: 0 <= i < |s| ==> s[i] != '\0' && s[i] != '\r' && s[i] != '\n' && s[i] != '\U{7F}'
  }

  predicate IsChatGpt(p: string) { p == "chatgpt" }

  /** The provider and flow id a kind allows. */
  predicate ValidIdentity(provider: string, kind: Kind, flowId: string) {
    && ValidProvider(provider)
    && (kind == Codex ==> IsChatGpt(provider) && ValidFlowId(flowId))
    && (kind == Generic ==> !IsChatGpt(provider) && flowId == "")
  }

  /** `validateOAuthSession`. */
  predicate ValidSession(s: Session) {
    IsSha256(s.id) && s.createdAt > 0 && ValidIdentity(s.provider, s.kind, s.flowId)
  }

  /** `sessionExpired`, and the test `cleanupExpired` makes. */
  predicate Expired(s: Session, now: int) {
    s.createdAt > now + 5 || now - s.createdAt > MAXIMUM_AGE_SECONDS
  }

  predicate Terminal(status: Status) {
    status == Complete || status == Cancelled || status == Failed
  }

  // ----- What the outside decides ----------------------------------------------

  datatype Keychain = Keychain(loaded: bool, valid: bool, api: seq<int>, admin: seq<int>)

  datatype SaveOutcome = Saved | NotSaved | SavedButNotSynced

  datatype Env = Env(
    now: int,
    listing: seq<string>,             // the session directory, in the order it is read
    listed: bool,                     // the directory could be prepared and read
    unreadable: map<string, OpError>, // sessions whose file cannot be loaded now, and why
    stuck: set<string>,               // sessions whose file cannot be removed now
    lease: bool,                      // the runtime lease is granted
    keychain: Keychain)

  /** The listing is the directory: every stored session once. */
  predicate Lists(env: Env, store: map<string, Session>) {
    && (forall i :: 0 <= i < |env.listing| ==> env.listing[i] in store)
    && (forall id :: id in store ==> id in env.listing)
    && (forall i, j :: 0 <= i < j < |env.listing| ==> env.listing[i] != env.listing[j])
  }

  // ----- The store --------------------------------------------------------------

  /** `oauthSessionStore.load`. */
  function Load(store: map<string, Session>, id: string, env: Env): Result<Session, OpError> {
    if !IsSha256(id) || id !in store then Err(InvalidRequest)
    else if id in env.unreadable then Err(env.unreadable[id])
    else if !ValidSession(store[id]) || store[id].id != id then Err(UnsafeState)
    else Ok(store[id])
  }

  /** The store after `remove`, which fails for a stuck file. */
  function Removed(store: map<string, Session>, id: string, env: Env): map<string, Session> {
    if id in env.stuck then store else store - {id}
  }

  datatype Cleaned = Cleaned(store: map<string, Session>, active: Result<nat, OpError>)

  /** The loop of `cleanupExpired` over the rest of the listing. */
  function CleanupFrom(store: map<string, Session>, ids: seq<string>, active: nat, env: Env): Cleaned
    decreases |ids|
  {
    if ids == [] then Cleaned(store, Ok(active))
    else
      var session := Load(store, ids[0], env);
      if session.Err? then Cleaned(store, Err(session.error))
      else if Expired(session.value, env.now) then
        if ids[0] in env.stuck then Cleaned(store, Err(FileSystem))
        else CleanupFrom(store - {ids[0]}, ids[1..], active, env)
      else CleanupFrom(store, ids[1..], active + 1, env)
  }

  /** `cleanupExpired`. */
  function Cleanup(store: map<string, Session>, env: Env): Cleaned {
    if !env.listed || |env.listing| > 2 * MAXIMUM_SESSIONS then Cleaned(store, Err(UnsafeState))
    else
      var c := CleanupFrom(store, env.listing, 0, env);
      if c.active.Ok? && c.active.value >= MAXIMUM_SESSIONS then c.(active := Err(UnsafeState)) else c
  }

  /** The loop of `hasActiveGenericProvider`; files removed a moment ago are no longer listed. */
  function ActiveFrom(store: map<string, Session>, ids: seq<string>, provider: string, env: Env): Result<bool, OpError>
    decreases |ids|
  {
    if ids == [] then Ok(false)
    else if ids[0] !in store then ActiveFrom(store, ids[1..], provider, env)
    else
      var session := Load(store, ids[0], env);
      if session.Err? then Err(session.error)
      else if session.value.kind == Generic && session.value.provider == provider then Ok(true)
      else ActiveFrom(store, ids[1..], provider, env)
  }

  // ----- Operations ---------------------------------------------------------------

  /** `loadAdminToken`: the lease and both secrets are good. */
  function Admission(env: Env): Result<(), OpError> {
    if !env.lease then Err(RecoveryRequired)
    else if !env.keychain.loaded || !env.keychain.valid || env.keychain.api == env.keychain.admin then Err(Credential)
    else Ok(())
  }

  /** What a call leaves in the log: nothing without a lease, else the calls inside one lease. */
  function LeaseLog(env: Env, calls: seq<Event>): seq<Event> {
    if !env.lease then []
    else if Admission(env).Err? then [Acquire, Release]
    else [Acquire] + calls + [Release]
  }

  datatype Step<+T> = Step(state: State, result: Result<T, OpError>)

  datatype StartAnswer = StartAnswer(flow: Option<Flow>, id: Option<string>, save: SaveOutcome)

  predicate ValidStart(provider: string, kind: Kind) {
    ValidProvider(provider) && (kind == Codex <==> IsChatGpt(provider))
  }

  /** The part of `Start` that runs under the lease, given the cleaned store. */
  function StartLeased(store: map<string, Session>, log: seq<Event>, provider: string, kind: Kind, env: Env,
                       answer: StartAnswer)
    : Step<Receipt>
  {
    var started := [CallStart(provider)];
    if answer.flow.None? then Step(State(store, log + LeaseLog(env, started)), Err(ManagementApi))
    else
      var flow := answer.flow.value;
      if !ValidIdentity(flow.provider, flow.kind, flow.flowId) || flow.provider != provider || flow.kind != kind ||
        !flow.presentable then
        Step(State(store, log + LeaseLog(env, started)), Err(ManagementApi))
      else if answer.id.None? then Step(State(store, log + LeaseLog(env, started)), Err(FileSystem))
      else
        var session := Session(answer.id.value, provider, kind, flow.flowId, env.now);
        var refused := !ValidSession(session) || session.id in store;
        if refused || answer.save != Saved then
          Step(State(if !refused && answer.save == SavedButNotSynced then store[session.id := session] else store,
                     log + LeaseLog(env, started + [CallCancelFlow])),
               Err(if refused then UnsafeState else FileSystem))
        else
          Step(State(store[session.id := session], log + LeaseLog(env, started)),
               Ok(Receipt(session.id, provider, kind, AwaitingUser)))
  }

  /** `Start`. */
  function StartStep(s: State, provider: string, kind: Kind, env: Env, answer: StartAnswer): Step<Receipt> {
    if !ValidStart(provider, kind) then Step(s, Err(InvalidRequest))
    else
      var cleaned := Cleanup(s.store, env);
      var t := State(cleaned.store, s.log);
      if cleaned.active.Err? then Step(t, Err(cleaned.active.error))
      else
        var active := if kind == Generic then ActiveFrom(t.store, env.listing, provider, env) else Ok(false);
        if active.Err? then Step(t, Err(active.error))
        else if active.value then Step(t, Err(StateChanged))
        else if Admission(env).Err? then Step(State(t.store, t.log + LeaseLog(env, [])), Err(Admission(env).error))
        else StartLeased(t.store, t.log, provider, kind, env, answer)
  }

  /** `Status`. */
  function StatusStep(s: State, id: string, env: Env, answer: Option<Status>): Step<Receipt> {
    var loaded := Load(s.store, id, env);
    if loaded.Err? then Step(s, Err(loaded.error))
    else
      var session := loaded.value;
      if Expired(session, env.now) then
        Step(s.(store := Removed(s.store, id, env)), Ok(Receipt(id, session.provider, session.kind, Failed)))
      else if Admission(env).Err? then Step(s.(log := s.log + LeaseLog(env, [])), Err(Admission(env).error))
      else
        var t := s.(log := s.log + LeaseLog(env, [CallStatus(id)]));
        if answer.None? || answer.value == Cancelled || answer.value == AwaitingUser then Step(t, Err(ManagementApi))
        else if Terminal(answer.value) && id in env.stuck then Step(t, Err(FileSystem))
        else
          Step(if Terminal(answer.value) then t.(store := t.store - {id}) else t,
               Ok(Receipt(id, session.provider, session.kind, answer.value)))
  }

  /** `Submit`; `None` stands for an input that could not be read as a submission. */
  function SubmitStep(s: State, id: string, input: Option<seq<int>>, env: Env, answer: bool): Step<Receipt> {
    if !IsSha256(id) || input.None? then Step(s, Err(InvalidRequest))
    else
      var loaded := Load(s.store, id, env);
      if loaded.Err? then Step(s, Err(loaded.error))
      else
        var session := loaded.value;
        if Expired(session, env.now) then Step(s.(store := Removed(s.store, id, env)), Err(InvalidRequest))
        else if Admission(env).Err? then Step(s.(log := s.log + LeaseLog(env, [])), Err(Admission(env).error))
        else
          Step(s.(log := s.log + LeaseLog(env, [CallSubmit(id)])),
               if answer then Ok(Receipt(id, session.provider, session.kind, Pending)) else Err(ManagementApi))
  }

  /** `Cancel`; it does not look at the age of the session. */
  function CancelStep(s: State, id: string, env: Env, answer: bool): Step<Receipt> {
    var loaded := Load(s.store, id, env);
    if loaded.Err? then Step(s, Err(loaded.error))
    else if Admission(env).Err? then Step(s.(log := s.log + LeaseLog(env, [])), Err(Admission(env).error))
    else
      var t := s.(log := s.log + LeaseLog(env, [CallCancel(id)]));
      if !answer then Step(t, Err(ManagementApi))
      else if id in env.stuck then Step(t, Err(FileSystem))
      else Step(t.(store := t.store - {id}), Ok(Receipt(id, loaded.value.provider, loaded.value.kind, Cancelled)))
  }

  // ----- The provider list ------------------------------------------------------------

  /** One provider as the API lists it; `None` stands for a kind the manager does not know. */
  datatype Provider = Provider(id: string, name: string, kind: Option<Kind>)

  /** What is demanded of one provider on its own. */
  predicate ProviderOk(p: Provider) {
    && ValidProvider(p.id) && 0 < |p.name| <= 128 && SafeText(p.name) && p.kind.Some?
    && (p.kind.value == Codex <==> IsChatGpt(p.id))
  }

  /** Well-formed providers, none twice. */
  predicate Listed(ps: seq<Provider>) {
    && (forall i :: 0 <= i < |ps| ==> ProviderOk(ps[i]))
    && (forall i, j :: 0 <= i < j < |ps| ==> ps[i].id != ps[j].id)
  }

  predicate OffersCodex(ps: seq<Provider>) { exists i :: 0 <= i < |ps| && IsChatGpt(ps[i].id) }

  /** No more than 64 well-formed providers, none twice, and the one Codex provider among them. */
  predicate ProvidersOk(ps: seq<Provider>) { |ps| <= 64 && Listed(ps) && OffersCodex(ps) }

  /** The providers seen so far, keyed as the source keys them. */
  predicate SeenIs(seen: set<(string, Kind)>, ps: seq<Provider>)
    requires Listed(ps)
  {
    && (forall i :: 0 <= i < |ps| ==> (ps[i].id, ps[i].kind.value) in seen)
    && (forall k :: k in seen ==> exists i :: 0 <= i < |ps| && ps[i].id == k.0)
  }

  lemma {:induction false} ListMore(seen: set<(string, Kind)>, ps: seq<Provider>, p: Provider)
    requires Listed(ps) && SeenIs(seen, ps) && ProviderOk(p) && (p.id, p.kind.value) !in seen
    ensures Listed(ps + [p]) && SeenIs(seen + {(p.id, p.kind.value)}, ps + [p])
    ensures OffersCodex(ps + [p]) <==> OffersCodex(ps) || IsChatGpt(p.id)
    ensures OffersCodex(ps) ==> !IsChatGpt(p.id)
  {
    hide ProviderOk, Listed, SeenIs, OffersCodex;
    NewId(seen, ps, p);
    ListedMore(ps, p);
    SeenMore(seen, ps, p);
    OneCodex(ps, p);
  }

  /** A key that was not seen has an id that was not seen. */
  lemma {:induction false} NewId(seen: set<(string, Kind)>, ps: seq<Provider>, p: Provider)
    requires Listed(ps) && SeenIs(seen, ps) && ProviderOk(p) && (p.id, p.kind.value) !in seen
    ensures forall i :: 0 <= i < |ps| ==> ps[i].id != p.id
  {
    hide ProviderOk;
    SameIdSameKind(ps, p);
  }

  lemma {:induction false} ListedMore(ps: seq<Provider>, p: Provider)
    requires Listed(ps) && ProviderOk(p) && forall i :: 0 <= i < |ps| ==> ps[i].id != p.id
    ensures Listed(ps + [p])
  {
    hide ProviderOk;
  }

  lemma {:induction false} SeenMore(seen: set<(string, Kind)>, ps: seq<Provider>, p: Provider)
    requires Listed(ps) && SeenIs(seen, ps) && ProviderOk(p) && Listed(ps + [p])
    ensures SeenIs(seen + {(p.id, p.kind.value)}, ps + [p])
  {
    hide ValidProvider, SafeText, IsChatGpt;
    var more, all := ps + [p], seen + {(p.id, p.kind.value)};
    assert more[|ps|] == p;
    forall k | k in all
      ensures exists i :: 0 <= i < |more| && more[i].id == k.0
    {
      if k in seen {
        var i :| 0 <= i < |ps| && ps[i].id == k.0;
        assert more[i] == ps[i];
      }
    }
  }

  /** For well-formed providers the kind follows from the id. */
  lemma {:induction false} SameIdSameKind(ps: seq<Provider>, p: Provider)
    requires Listed(ps) && ProviderOk(p)
    ensures forall i :: 0 <= i < |ps| && ps[i].id == p.id ==> ps[i].kind == p.kind
  {
    hide ValidProvider, SafeText, IsChatGpt;
    forall i | 0 <= i < |ps| && ps[i].id == p.id
      ensures ps[i].kind == p.kind
    {
      assert ProviderOk(ps[i]);
    }
  }

  lemma {:induction false} OneCodex(ps: seq<Provider>, p: Provider)
    requires forall i :: 0 <= i < |ps| ==> ps[i].id != p.id
    ensures OffersCodex(ps) ==> !IsChatGpt(p.id)
    ensures OffersCodex(ps + [p]) <==> OffersCodex(ps) || IsChatGpt(p.id)
  {
    var more := ps + [p];
    assert more[|ps|] == p;
    if i :| 0 <= i < |ps| && IsChatGpt(ps[i].id) {
      assert more[i] == ps[i];
    }
  }

  /** A provider that is not well formed, or that was seen before, spoils the list. */
  lemma {:induction false} Spoiled(ps: seq<Provider>, n: nat, seen: set<(string, Kind)>)
    requires n < |ps| && Listed(ps[..n]) && SeenIs(seen, ps[..n])
    ensures !ProviderOk(ps[n]) ==> !Listed(ps)
    ensures ps[n].kind.Some? && (ps[n].id, ps[n].kind.value) in seen ==> !Listed(ps)
  {
    hide ProviderOk;
    if ps[n].kind.Some? && (ps[n].id, ps[n].kind.value) in seen {
      var i :| 0 <= i < n && ps[..n][i].id == ps[n].id;
      assert ps[i] == ps[..n][i];
    }
  }

  /** `validateProviders`. */
  method ValidateProviders(ps: seq<Provider>) returns (ok: bool)
    ensures ok <==> ProvidersOk(ps)
  {
    hide ValidProvider, SafeText, Listed, SeenIs, OffersCodex, IsChatGpt;
    assert OffersCodex(ps) ==> ps != [] by { EmptyList(ps); }
    if |ps| == 0 || |ps| > 64 {
      return false;
    }
    var seen: set<(string, Kind)> := {};
    var codex := 0;
    EmptyList([]);
    for index := 0 to |ps|
      invariant Listed(ps[..index]) && SeenIs(seen, ps[..index])
      invariant codex == if OffersCodex(ps[..index]) then 1 else 0
    {
      var p := ps[index];
      Spoiled(ps, index, seen);
      if !ValidProvider(p.id) || p.name == "" || |p.name| > 128 || !SafeText(p.name) || p.kind.None? {
        return false;
      }
      var key := (p.id, p.kind.value);
      if key in seen {
        return false;
      }
      if p.kind.value == Codex {
        if !IsChatGpt(p.id) {
          return false;
        }
        codex := codex + 1;
      } else if IsChatGpt(p.id) {
        return false;
      }
      ListMore(seen, ps[..index], p);
      assert ps[..index + 1] == ps[..index] + [p];
      seen := seen + {key};
    }
    assert ps[..|ps|] == ps;
    ok := codex == 1;
  }

  lemma {:induction false} EmptyList(ps: seq<Provider>)
    ensures OffersCodex(ps) ==> ps != []
    ensures ps == [] ==> Listed(ps) && SeenIs({}, ps)
  {
  }

  // ----- The manager ----------------------------------------------------------------

  method ZeroBytes(value: array<int>)
    modifies value
    ensures forall i :: 0 <= i < value.Length ==> value[i] == 0
  {
    for index := 0 to value.Length
      invariant forall i :: 0 <= i < index ==> value[i] == 0
    {
      value[index] := 0;
    }
  }

  class Manager {
    var store: map<string, Session>
    var log: seq<Event>
    /** Every buffer that ever held a secret on behalf of this manager. */
    ghost var secrets: set<array<int>>

    constructor ()
      ensures View() == State(map[], []) && secrets == {}
    {
      store, log, secrets := map[], [], {};
    }

    ghost function View(): State
      reads this
    {
      State(store, log)
    }

    /** No secret is left in any buffer, except possibly in `kept`. */
    ghost predicate Wiped(kept: set<array<int>>)
      reads this, secrets
    {
      forall b, i :: b in secrets && b !in kept && 0 <= i < b.Length ==> b[i] == 0
    }

    method ReleaseLease()
      modifies this`log
      ensures log == old(log) + [Release]
    {
      log := log + [Release];
    }

    /** The two secrets as the keychain hands them out, each in a buffer of its own. */
    method LoadSecrets(env: Env) returns (apiToken: array<int>, adminToken: array<int>)
      modifies this`secrets
      ensures fresh(apiToken) && fresh(adminToken) && apiToken != adminToken
      ensures apiToken[..] == env.keychain.api && adminToken[..] == env.keychain.admin
      ensures secrets == old(secrets) + {apiToken, adminToken}
    {
      apiToken := new int[|env.keychain.api|](i requires 0 <= i < |env.keychain.api| => env.keychain.api[i]);
      adminToken := new int[|env.keychain.admin|](i requires 0 <= i < |env.keychain.admin| => env.keychain.admin[i]);
      secrets := secrets + {apiToken, adminToken};
    }

    /**
     `loadAdminToken`: take the lease, load both secrets, wipe what was loaded and hand out a
     copy of the admin token. On any failure nothing is kept and a taken lease is given back.
     */
    method LoadAdminToken(env: Env, ghost kept: set<array<int>>) returns (r: Result<array<int>, OpError>)
      requires Wiped(kept)
      modifies this`log, this`secrets
      ensures fresh(secrets - old(secrets)) && old(secrets) <= secrets
      ensures r.Ok? <==> Admission(env).Ok?
      ensures r.Err? ==> r.error == Admission(env).error && log == old(log) + LeaseLog(env, []) && Wiped(kept)
      ensures r.Ok? ==> log == old(log) + [Acquire] && r.value in secrets && fresh(r.value) && Wiped(kept + {r.value})
      ensures r.Ok? ==> r.value[..] == env.keychain.admin
      ensures env.lease ==>
                exists a, b :: a in secrets && b in secrets && fresh(a) && fresh(b) && a != b &&
                  a.Length == |env.keychain.api| && b.Length == |env.keychain.admin| &&
                  (r.Ok? ==> r.value != a && r.value != b)
    {
      if !env.lease {
        return Err(RecoveryRequired);
      }
      log := log + [Acquire];
      var apiToken, adminToken := LoadSecrets(env);
      var good := env.keychain.loaded && env.keychain.valid && env.keychain.api != env.keychain.admin;
      if !good {
        ZeroBytes(apiToken);
        ZeroBytes(adminToken);
        ReleaseLease();
        return Err(Credential);
      }
      var admin := new int[adminToken.Length](i requires 0 <= i < adminToken.Length reads adminToken => adminToken[i]);
      assert admin[..] == env.keychain.admin;
      secrets := secrets + {admin};
      ZeroBytes(apiToken);
      ZeroBytes(adminToken);
      r := Ok(admin);
    }

    /** `Providers`: the list the API answers with, when it is well formed. */
    method Providers(env: Env, answer: Option<seq<Provider>>) returns (r: Result<seq<Provider>, OpError>)
      requires Wiped({})
      modifies this`log, this`secrets
      ensures Wiped({}) && fresh(secrets - old(secrets))
      ensures log == old(log) + LeaseLog(env, [CallProviders])
      ensures r.Ok? <==> Admission(env).Ok? && answer.Some? && ProvidersOk(answer.value)
      ensures r.Ok? ==> r.value == answer.value
      ensures r.Err? ==> r.error == if Admission(env).Err? then Admission(env).error else ManagementApi
    {
      hide ProvidersOk;
      var admin := LoadAdminToken(env, {});
      if admin.Err? {
        return Err(admin.error);
      }
      log := log + [CallProviders];
      if answer.None? {
        r := Err(ManagementApi);
      } else {
        var ok := ValidateProviders(answer.value);
        r := if ok then Ok(answer.value) else Err(ManagementApi);
      }
      ReleaseLease();
      ZeroBytes(admin.value);
    }

    method CleanupExpired(env: Env) returns (r: Result<nat, OpError>)
      modifies this`store
      ensures Cleaned(store, r) == Cleanup(old(store), env)
    {
      if !env.listed || |env.listing| > 2 * MAXIMUM_SESSIONS {
        return Err(UnsafeState);
      }
      var active := 0;
      var index := 0;
      assert env.listing[0..] == env.listing;
      while index < |env.listing|
        invariant index <= |env.listing|
        invariant CleanupFrom(old(store), env.listing, 0, env) == CleanupFrom(store, env.listing[index..], active, env)
      {
        var id := env.listing[index];
        assert env.listing[index..][1..] == env.listing[index + 1..];
        var session := Load(store, id, env);
        if session.Err? {
          return Err(session.error);
        }
        if Expired(session.value, env.now) {
          if id in env.stuck {
            return Err(FileSystem);
          }
          store := store - {id};
        } else {
          active := active + 1;
        }
        index := index + 1;
      }
      assert env.listing[index..] == [];
      if active >= MAXIMUM_SESSIONS {
        return Err(UnsafeState);
      }
      r := Ok(active);
    }

    method HasActiveGenericProvider(provider: string, env: Env) returns (r: Result<bool, OpError>)
      ensures r == ActiveFrom(store, env.listing, provider, env)
    {
      assert env.listing[0..] == env.listing;
      var index := 0;
      while index < |env.listing|
        invariant index <= |env.listing|
        invariant ActiveFrom(store, env.listing, provider, env) ==
          ActiveFrom(store, env.listing[index..], provider, env)
      {
        var id := env.listing[index];
        assert env.listing[index..][1..] == env.listing[index + 1..];
        if id in store {
          var session := Load(store, id, env);
          if session.Err? {
            return Err(session.error);
          }
          if session.value.kind == Generic && session.value.provider == provider {
            return Ok(true);
          }
        }
        index := index + 1;
      }
      assert env.listing[index..] == [];
      r := Ok(false);
    }

    method Start(provider: string, kind: Kind, env: Env, answer: StartAnswer) returns (r: Result<Receipt, OpError>)
      requires Wiped({})
      modifies this
      ensures Wiped({}) && fresh(secrets - old(secrets))
      ensures Step(View(), r) == StartStep(old(View()), provider, kind, env, answer)
    {
      hide Cleanup, ActiveFrom, ValidProvider, IsChatGpt, ValidIdentity, IsSha256;
      if !ValidStart(provider, kind) {
        return Err(InvalidRequest);
      }
      var cleaned := CleanupExpired(env);
      if cleaned.Err? {
        return Err(cleaned.error);
      }
      if kind == Generic {
        var active := HasActiveGenericProvider(provider, env);
        if active.Err? {
          return Err(active.error);
        }
        if active.value {
          return Err(StateChanged);
        }
      }
      var admin := LoadAdminToken(env, {});
      if admin.Err? {
        return Err(admin.error);
      }
      r := StartUnderLease(provider, kind, env, answer);
      ReleaseLease();
      ZeroBytes(admin.value);
    }

    /** The body of `Start` between taking the lease and the deferred release. */
    method StartUnderLease(provider: string, kind: Kind, env: Env, answer: StartAnswer)
        returns (r: Result<Receipt, OpError>)
      requires Admission(env).Ok? && log != [] && log[|log| - 1] == Acquire
      modifies this`store, this`log
      ensures var before := old(log)[..|old(log)| - 1];
              Step(State(store, log + [Release]), r) == StartLeased(old(store), before, provider, kind, env, answer)
    {
      hide ValidProvider, IsChatGpt, ValidIdentity, IsSha256;
      ghost var before := log[..|log| - 1];
      assert log == before + [Acquire];
      log := log + [CallStart(provider)];
      assert log + [Release] == before + ([Acquire] + [CallStart(provider)] + [Release]);
      if answer.flow.None? {
        return Err(ManagementApi);
      }
      var flow := answer.flow.value;
      if !ValidIdentity(flow.provider, flow.kind, flow.flowId) || flow.provider != provider || flow.kind != kind ||
        !flow.presentable {
        return Err(ManagementApi);
      }
      if answer.id.None? {
        return Err(FileSystem);
      }
      var session := Session(answer.id.value, provider, kind, flow.flowId, env.now);
      var refused := !ValidSession(session) || session.id in store;
      if !refused && answer.save != NotSaved {
        store := store[session.id := session];
      }
      if refused || answer.save != Saved {
        log := log + [CallCancelFlow];
        assert log + [Release] == before + ([Acquire] + ([CallStart(provider)] + [CallCancelFlow]) + [Release]);
        return Err(if refused then UnsafeState else FileSystem);
      }
      r := Ok(Receipt(session.id, provider, kind, AwaitingUser));
    }

    method Status(id: string, env: Env, answer: Option<Status>) returns (r: Result<Receipt, OpError>)
      requires Wiped({})
      modifies this
      ensures Wiped({}) && fresh(secrets - old(secrets))
      ensures Step(View(), r) == StatusStep(old(View()), id, env, answer)
    {
      hide Load;
      var loaded := Load(store, id, env);
      if loaded.Err? {
        return Err(loaded.error);
      }
      var session := loaded.value;
      if Expired(session, env.now) {
        store := Removed(store, id, env);
        return Ok(Receipt(id, session.provider, session.kind, Failed));
      }
      var admin := LoadAdminToken(env, {});
      if admin.Err? {
        return Err(admin.error);
      }
      log := log + [CallStatus(id)];
      if answer.None? || answer.value == Cancelled || answer.value == AwaitingUser {
        r := Err(ManagementApi);
      } else if Terminal(answer.value) && id in env.stuck {
        r := Err(FileSystem);
      } else {
        if Terminal(answer.value) {
          store := store - {id};
        }
        r := Ok(Receipt(id, session.provider, session.kind, answer.value));
      }
      ReleaseLease();
      ZeroBytes(admin.value);
      assert log == old(log) + ([Acquire] + [CallStatus(id)] + [Release]);
    }

    method Submit(id: string, input: Option<seq<int>>, env: Env, answer: bool) returns (r: Result<Receipt, OpError>)
      requires Wiped({})
      modifies this
      ensures Wiped({}) && fresh(secrets - old(secrets))
      ensures Step(View(), r) == SubmitStep(old(View()), id, input, env, answer)
      ensures IsSha256(id) && input.Some? ==>
                exists b :: b in secrets && fresh(b) && b.Length == |input.value| &&
                  forall i :: 0 <= i < b.Length ==> b[i] == 0
    {
      hide Load, IsSha256;
      if !IsSha256(id) || input.None? {
        return Err(InvalidRequest);
      }
      var buffer := new int[|input.value|](i requires 0 <= i < |input.value| => input.value[i]);
      secrets := secrets + {buffer};
      r := SubmitInput(id, input, buffer, env, answer);
      ZeroBytes(buffer);
    }

    /** The body of `Submit` while the input buffer is alive. */
    method SubmitInput(id: string, input: Option<seq<int>>, buffer: array<int>, env: Env, answer: bool)
        returns (r: Result<Receipt, OpError>)
      requires Wiped({buffer}) && IsSha256(id) && input.Some? && buffer[..] == input.value
      modifies this
      ensures Wiped({buffer}) && fresh(secrets - old(secrets)) && old(secrets) <= secrets
      ensures Step(View(), r) == SubmitStep(old(View()), id, input, env, answer)
    {
      hide Load, IsSha256;
      var loaded := Load(store, id, env);
      if loaded.Err? {
        return Err(loaded.error);
      }
      var session := loaded.value;
      if Expired(session, env.now) {
        store := Removed(store, id, env);
        return Err(InvalidRequest);
      }
      var admin := LoadAdminToken(env, {buffer});
      if admin.Err? {
        return Err(admin.error);
      }
      log := log + [CallSubmit(id)];
      r := if answer then Ok(Receipt(id, session.provider, session.kind, Pending)) else Err(ManagementApi);
      ReleaseLease();
      ZeroBytes(admin.value);
      assert log == old(log) + ([Acquire] + [CallSubmit(id)] + [Release]);
    }

    method Cancel(id: string, env: Env, answer: bool) returns (r: Result<Receipt, OpError>)
      requires Wiped({})
      modifies this
      ensures Wiped({}) && fresh(secrets - old(secrets))
      ensures Step(View(), r) == CancelStep(old(View()), id, env, answer)
    {
      hide Load;
      var loaded := Load(store, id, env);
      if loaded.Err? {
        return Err(loaded.error);
      }
      var session := loaded.value;
      var admin := LoadAdminToken(env, {});
      if admin.Err? {
        return Err(admin.error);
      }
      log := log + [CallCancel(id)];
      if !answer {
        r := Err(ManagementApi);
      } else if id in env.stuck {
        r := Err(FileSystem);
      } else {
        store := store - {id};
        r := Ok(Receipt(id, session.provider, session.kind, Cancelled));
      }
      ReleaseLease();
      ZeroBytes(admin.value);
      assert log == old(log) + ([Acquire] + [CallCancel(id)] + [Release]);
    }
  }
}
