/**
 The relay's own configuration (`config/config.go`): `Validate`, `applyDefaults`, the derivation
 of the local runtime profiles, `Write` and `Load`. A label is a datatype whose last constructor
 stands for every text the relay does not know; URL, address, path and duration parsing and the
 file system are parameters.
 */
module RelayConfig {

  import opened Wrappers

  // ----- Data -----------------------------------------------------------------------

  datatype Scope = NoScope | Production | LocalDevelopment | OtherScope(text: string)
  datatype Mode = NoMode | ExternalGateway | LocalOpenCodexMode | LocalAppleContainerMode | OtherMode(text: string)
  datatype Source = Keychain | CredentialFile | NoCredentials | OtherSource(text: string)
  datatype Profile =
    | NoProfile | Unauthenticated | GatewayKey | CloudflareAndGatewayKey | LocalKey | OtherProfile(text: string)
  datatype WebSocket = NoWebSocket | Passthrough | HttpFallback | OtherWebSocket(text: string)
  datatype Owner = NoOwner | RelayOwner | RemoteManager | OtherOwner(text: string)
  datatype ModelMode = BoundedJson | OtherModelMode(text: string)

  datatype Credentials = Credentials(
    source: Source, file: string, account: string, profile: Profile, allowInsecure: bool)

  datatype Scheduler = Scheduler(
    interactive: string,
    classifications: int, pending: int, pendingBytes: int, queueTimeout: int,
    general: int, reserved: int, transforms: int, deliveries: int)

  datatype Responses = Responses(webSocket: WebSocket, modelModes: map<string, ModelMode>, scheduler: Scheduler)

  datatype Catalog = Catalog(
    owner: Owner, path: string, refresh: string, manage: bool, home: string, executable: string)

  datatype LocalProfile = LocalProfile(url: string, catalog: string)
  datatype AppleProfile = AppleProfile(url: string, catalog: string, account: string)

  /** The last two fields mark a derived runtime configuration and are never written. */
  datatype Config = Config(
    scope: Scope, listen: string, mode: Mode, url: string, voice: bool,
    credentials: Credentials, responses: Responses, catalog: Catalog, probe: bool,
    local: Option<LocalProfile>, apple: Option<AppleProfile>,
    localRuntime: bool, appleRuntime: bool)

  /** What the libraries and the file system answer; case folding is equality of `fold`. */
  datatype Host = Host(
    normalize: string -> Option<string>,            // canonical gateway URL
    secure: string -> bool,                         // not plain HTTP
    split: string -> Option<(string, string)>,      // host and port of an address
    isAbs: string -> bool,
    clean: string -> string,
    base: string -> string,
    trim: string -> string,
    fold: string -> string,
    seconds: string -> Option<int>,                 // a duration
    canonical: string -> Option<string>,            // a path with its symbolic links resolved
    same: (string, string) -> Option<bool>)         // both exist and are one file

  const IPV4_URL := "http://127.0.0.1:10100/v1"
  const IPV6_URL := "http://[::1]:10100/v1"
  const APPLE_URL := "http://127.0.0.1:10210/v1"
  const DEVELOPMENT_LISTEN := "127.0.0.1:18190"
  const DEVELOPMENT_INTERACTIVE := "127.0.0.1:18192"
  const DEVELOPMENT_EXTERNAL_CATALOG := "opencodex-relay-dev-external-catalog.json"
  const DEVELOPMENT_LOCAL_CATALOG := "opencodex-relay-dev-local-catalog.json"
  const DEVELOPMENT_APPLE_CATALOG := "opencodex-relay-dev-apple-container-catalog.json"
  const APPLE_CATALOG := "opencodex-relay-apple-container-catalog.json"
  const PENDING_SUFFIX := ".restart-pending"
  const PREVIOUS_SUFFIX := ".previous"

  // ----- Defaults -------------------------------------------------------------------

  predicate IsLoopback(host: string) { host == "127.0.0.1" || host == "::1" }

  /** The interactive listener a primary listener implies, or none. */
  function DefaultInteractive(listen: string, h: Host): string {
    var address := h.split(listen);
    if address.None? || !IsLoopback(address.value.0) then ""
    else if address.value.0 == "127.0.0.1" then "127.0.0.1:18182"
    else "[::1]:18182"
  }

  function OrDefault(value: int, default: int): int { if value == 0 then default else value }

  function DefaultedScheduler(s: Scheduler, listen: string, h: Host): Scheduler {
    Scheduler(if s.interactive == "" then DefaultInteractive(listen, h) else s.interactive,
              OrDefault(s.classifications, 8), OrDefault(s.pending, 24), OrDefault(s.pendingBytes, 512 * 1024 * 1024),
              OrDefault(s.queueTimeout, 60000), OrDefault(s.general, 4), OrDefault(s.reserved, 1),
              OrDefault(s.transforms, 2), OrDefault(s.deliveries, 16))
  }

  function EffectiveMode(m: Mode): Mode { if m == NoMode then ExternalGateway else m }

  function EffectiveWebSocket(w: WebSocket): WebSocket { if w == NoWebSocket then Passthrough else w }

  function EffectiveOwner(o: Owner): Owner { if o == NoOwner then RelayOwner else o }

  /** What `applyDefaults` leaves in its receiver. */
  function Defaulted(c: Config, h: Host): Config {
    c.(mode := EffectiveMode(c.mode),
       responses := c.responses.(webSocket := EffectiveWebSocket(c.responses.webSocket),
                                 scheduler := DefaultedScheduler(c.responses.scheduler, c.listen, h)),
       catalog := c.catalog.(owner := EffectiveOwner(c.catalog.owner)))
  }

  /** The defaults of the scheduler, field by field. */
  method ApplySchedulerDefaults(before: Scheduler, listen: string, h: Host) returns (s: Scheduler)
    ensures s == DefaultedScheduler(before, listen, h)
  {
    hide DefaultInteractive;
    s := before;
    if s.interactive == "" {
      s := s.(interactive := DefaultInteractive(listen, h));
    }
    if s.classifications == 0 { s := s.(classifications := 8); }
    if s.pending == 0 { s := s.(pending := 24); }
    if s.pendingBytes == 0 { s := s.(pendingBytes := 512 * 1024 * 1024); }
    if s.queueTimeout == 0 { s := s.(queueTimeout := 60000); }
    if s.general == 0 { s := s.(general := 4); }
    if s.reserved == 0 { s := s.(reserved := 1); }
    if s.transforms == 0 { s := s.(transforms := 2); }
    if s.deliveries == 0 { s := s.(deliveries := 16); }
  }

  /** A configuration while it is being completed. */
  class Draft {
    var mode: Mode
    var responses: Responses
    var catalog: Catalog
    const rest: Config

    constructor (c: Config)
      ensures View() == c
    {
      mode, responses, catalog, rest := c.mode, c.responses, c.catalog, c;
    }

    ghost function View(): Config
      reads this
    {
      rest.(mode := mode, responses := responses, catalog := catalog)
    }

    /** `applyDefaults`. */
    method ApplyDefaults(h: Host)
      modifies this
      ensures View() == Defaulted(old(View()), h)
    {
      hide DefaultedScheduler;
      if mode == NoMode {
        mode := ExternalGateway;
      }
      if responses.webSocket == NoWebSocket {
        responses := responses.(webSocket := Passthrough);
      }
      var scheduler := ApplySchedulerDefaults(responses.scheduler, rest.listen, h);
      responses := responses.(scheduler := scheduler);
      if catalog.owner == NoOwner {
        catalog := catalog.(owner := RelayOwner);
      }
    }
  }

  // ----- Catalog separation -----------------------------------------------------------

  function Artifacts(path: string): seq<string> { [path, path + PENDING_SUFFIX, path + PREVIOUS_SUFFIX] }

  /** Two artifacts that provably are different files, now and whatever the case rules. */
  predicate Apart(a: string, b: string, h: Host) {
    && h.canonical(a).Some? && h.canonical(b).Some?
    && h.fold(h.canonical(a).value) != h.fold(h.canonical(b).value)
    && h.same(a, b) == Some(false)
  }

  predicate ArtifactsApart(first: string, second: string, h: Host) {
    forall a, b :: a in Artifacts(first) && b in Artifacts(second) ==> Apart(a, b, h)
  }

  predicate Separate(paths: seq<string>, h: Host) {
    forall i, j :: 0 <= i < j < |paths| ==> ArtifactsApart(paths[i], paths[j], h)
  }

  /** The two inner loops: every artifact of one path against every artifact of another. */
  method CompareArtifacts(first: string, second: string, h: Host) returns (ok: bool)
    ensures ok <==> ArtifactsApart(first, second, h)
  {
    hide Artifacts;
    var firstArtifacts, secondArtifacts := Artifacts(first), Artifacts(second);
    for i := 0 to |firstArtifacts|
      invariant forall k, l :: 0 <= k < i && 0 <= l < |secondArtifacts| ==>
        Apart(firstArtifacts[k], secondArtifacts[l], h)
    {
      var canonicalFirst := h.canonical(firstArtifacts[i]);
      for j := 0 to |secondArtifacts|
        invariant forall l :: 0 <= l < j ==> Apart(firstArtifacts[i], secondArtifacts[l], h)
      {
        var canonicalSecond := h.canonical(secondArtifacts[j]);
        var same := h.same(firstArtifacts[i], secondArtifacts[j]);
        if canonicalFirst.None? || canonicalSecond.None?
           || h.fold(canonicalFirst.value) == h.fold(canonicalSecond.value)
           || same != Some(false)
        {
          assert !Apart(firstArtifacts[i], secondArtifacts[j], h);
          return false;
        }
      }
    }
    ok := true;
  }

  /** `validateCatalogArtifactSeparation`. */
  method ValidateCatalogArtifactSeparation(paths: seq<string>, h: Host) returns (ok: bool)
    ensures ok <==> Separate(paths, h)
  {
    hide ArtifactsApart;
    for first := 0 to |paths|
      invariant forall i, j :: 0 <= i < first && i < j < |paths| ==> ArtifactsApart(paths[i], paths[j], h)
    {
      for second := first + 1 to |paths|
        invariant forall j :: first < j < second ==> ArtifactsApart(paths[first], paths[j], h)
      {
        var distinct := CompareArtifacts(paths[first], paths[second], h);
        if !distinct {
          return false;
        }
      }
    }
    ok := true;
  }

  // ----- Validation -------------------------------------------------------------------

  predicate IsDigits(s: string) { s != "" && forall i :: 0 <= i < |s| ==> '0' <= s[i] <= '9' }

  function Decimal(s: string): int
    requires forall i :: 0 <= i < |s| ==> '0' <= s[i] <= '9'
  {
    if s == "" then 0 else 10 * Decimal(s[..|s| - 1]) + (s[|s| - 1] as int - '0' as int)
  }

  /** `parseLoopbackListenAddress`. */
  function Loopback(address: string, h: Host): Option<(string, int)> {
    var parts := h.split(address);
    if parts.None? || !IsLoopback(parts.value.0) || !IsDigits(parts.value.1) then None
    else
      var port := Decimal(parts.value.1);
      if 1 <= port <= 65535 then Some((parts.value.0, port)) else None
  }

  predicate CleanAbsolute(path: string, h: Host) { h.isAbs(path) && h.clean(path) == path }

  /** `RemoteAuthenticationProfile`. */
  function AuthenticationProfile(c: Credentials): Profile {
    if c.profile != NoProfile then c.profile
    else if c.source == NoCredentials then Unauthenticated
    else CloudflareAndGatewayKey
  }

  function EffectiveScope(s: Scope): Scope { if s == NoScope then Production else s }

  predicate ValidScope(c: Config) {
    EffectiveScope(c.scope) == Production ||
    (EffectiveScope(c.scope) == LocalDevelopment && c.listen == DEVELOPMENT_LISTEN)
  }

  predicate IsLocalUrl(url: string) { url == IPV4_URL || url == IPV6_URL }

  predicate ValidExternal(c: Config, h: Host) {
    var profile := AuthenticationProfile(c.credentials);
    var source := c.credentials.source;
    && c.url != "" && h.normalize(c.url) == Some(c.url)
    && (profile == Unauthenticated || profile == GatewayKey || profile == CloudflareAndGatewayKey)
    && (source == Keychain || source == CredentialFile || (profile == Unauthenticated && source == NoCredentials))
    && (if h.secure(c.url) then !c.credentials.allowInsecure
        else profile != CloudflareAndGatewayKey && c.credentials.allowInsecure)
  }

  predicate ValidLocal(c: Config) {
    && IsLocalUrl(c.url) && c.credentials.source == NoCredentials
    && AuthenticationProfile(c.credentials) == Unauthenticated && !c.credentials.allowInsecure
  }

  predicate ValidApple(c: Config) {
    && c.appleRuntime && c.apple.Some? && c.url == APPLE_URL
    && c.credentials.source == Keychain && c.credentials.file == ""
    && AuthenticationProfile(c.credentials) == LocalKey && !c.credentials.allowInsecure
  }

  predicate ValidUpstream(c: Config, h: Host) {
    && (match EffectiveMode(c.mode)
        case ExternalGateway => ValidExternal(c, h)
        case LocalOpenCodexMode => ValidLocal(c)
        case LocalAppleContainerMode => ValidApple(c)
        case NoMode => false
        case OtherMode(_) => false)
    && (c.credentials.source == CredentialFile ==> c.credentials.file != "")
  }

  predicate ValidModelModes(r: Responses, h: Host) {
    && (forall m :: m in r.modelModes ==> m != "" && h.trim(m) == m && r.modelModes[m] == BoundedJson)
    && (forall m, n :: m in r.modelModes && n in r.modelModes && m != n ==> h.fold(m) != h.fold(n))
    && (r.modelModes != map[] ==> EffectiveWebSocket(r.webSocket) == HttpFallback)
  }

  predicate ValidLimits(s: Scheduler) {
    && 1 <= s.classifications <= 64 && 1 <= s.pending <= 256
    && 32 * 1024 * 1024 <= s.pendingBytes <= 16 * 1024 * 1024 * 1024
    && 1000 <= s.queueTimeout <= 300000 && 1 <= s.general <= 64 && 1 <= s.reserved <= 16
    && 1 <= s.transforms <= 16 && 1 <= s.deliveries <= 256
  }

  predicate ValidResponses(c: Config, h: Host) {
    var webSocket := EffectiveWebSocket(c.responses.webSocket);
    var scheduler := DefaultedScheduler(c.responses.scheduler, c.listen, h);
    && (webSocket == Passthrough || webSocket == HttpFallback)
    && ValidModelModes(c.responses, h)
    && (EffectiveScope(c.scope) == LocalDevelopment ==> scheduler.interactive == DEVELOPMENT_INTERACTIVE)
    && Loopback(scheduler.interactive, h).Some?
    && Loopback(scheduler.interactive, h) != Loopback(c.listen, h)
    && ValidLimits(scheduler)
  }

  predicate ValidOwner(c: Config) {
    var owner, mode := EffectiveOwner(c.catalog.owner), EffectiveMode(c.mode);
    && (owner == RelayOwner || owner == RemoteManager)
    && (mode == LocalOpenCodexMode ==> owner == RemoteManager || c.localRuntime)
    && (mode == LocalAppleContainerMode || mode == ExternalGateway ==> owner == RelayOwner)
    && (c.probe ==> mode == ExternalGateway)
  }

  predicate ValidCatalog(c: Config, h: Host) {
    && c.catalog.path != "" && c.catalog.executable != ""
    && (EffectiveScope(c.scope) == LocalDevelopment ==>
          && CleanAbsolute(c.catalog.path, h)
          && h.base(c.catalog.path) == (if c.localRuntime then DEVELOPMENT_LOCAL_CATALOG
                                        else if c.appleRuntime then DEVELOPMENT_APPLE_CATALOG
                                        else DEVELOPMENT_EXTERNAL_CATALOG)
          && (!c.localRuntime && c.local.Some? ==> h.base(c.local.value.catalog) == DEVELOPMENT_LOCAL_CATALOG)
          && (!c.appleRuntime && c.apple.Some? ==> h.base(c.apple.value.catalog) == DEVELOPMENT_APPLE_CATALOG))
    && (c.catalog.home != "" ==> CleanAbsolute(c.catalog.home, h))
  }

  /** `validateLocalOpenCodexProfile`. */
  predicate ValidLocalProfile(c: Config, h: Host) {
    if c.localRuntime then
      c.local.Some? && EffectiveMode(c.mode) == LocalOpenCodexMode && c.catalog.owner == RelayOwner
    else
      c.local.Some? ==>
        && EffectiveMode(c.mode) == ExternalGateway && IsLocalUrl(c.local.value.url)
        && c.local.value.catalog != "" && CleanAbsolute(c.local.value.catalog, h)
        && c.catalog.path != "" && CleanAbsolute(c.catalog.path, h)
  }

  /** `validateLocalAppleContainerProfile`. */
  predicate ValidAppleProfile(c: Config, h: Host) {
    if c.appleRuntime then
      c.apple.Some? && EffectiveMode(c.mode) == LocalAppleContainerMode && c.catalog.owner == RelayOwner
    else
      c.apple.Some? ==>
        && EffectiveMode(c.mode) == ExternalGateway && c.apple.value.url == APPLE_URL
        && c.apple.value.catalog != "" && CleanAbsolute(c.apple.value.catalog, h)
        && h.base(c.apple.value.catalog) ==
          (if EffectiveScope(c.scope) == LocalDevelopment then DEVELOPMENT_APPLE_CATALOG else APPLE_CATALOG)
        && h.trim(c.apple.value.account) == c.apple.value.account
  }

  /** The catalogs one durable configuration enrols. */
  function CatalogPaths(c: Config): seq<string> {
    [c.catalog.path]
    + (if c.local.Some? then [c.local.value.catalog] else [])
    + (if c.apple.Some? then [c.apple.value.catalog] else [])
  }

  predicate Derived(c: Config) { c.localRuntime || c.appleRuntime }

  predicate ValidRefresh(c: Config, h: Host) {
    h.seconds(c.catalog.refresh).Some? && h.seconds(c.catalog.refresh).value >= 60
  }

  /** `Validate` reports no error. */
  predicate Valid(c: Config, h: Host) {
    && ValidScope(c) && c.listen != "" && Loopback(c.listen, h).Some?
    && ValidUpstream(c, h) && ValidResponses(c, h) && ValidOwner(c) && ValidCatalog(c, h)
    && ValidLocalProfile(c, h) && ValidAppleProfile(c, h)
    && (!Derived(c) ==> Separate(CatalogPaths(c), h))
    && ValidRefresh(c, h)
  }

  // ----- Derivation, writing and loading --------------------------------------------------

  function LocalRuntime(c: Config): Config
    requires c.local.Some?
  {
    c.(mode := LocalOpenCodexMode, url := c.local.value.url,
       credentials := Credentials(NoCredentials, "", "", NoProfile, false),
       catalog := c.catalog.(owner := RelayOwner, path := c.local.value.catalog),
       probe := false, apple := None, localRuntime := true)
  }

  function AppleRuntime(c: Config): Config
    requires c.apple.Some?
  {
    c.(mode := LocalAppleContainerMode, url := c.apple.value.url,
       credentials := Credentials(Keychain, "", c.apple.value.account, LocalKey, false),
       catalog := c.catalog.(owner := RelayOwner, path := c.apple.value.catalog),
       probe := false, local := None, appleRuntime := true)
  }

  /** `LocalOpenCodexRuntimeConfig`, with its validation before and after. */
  function LocalOpenCodexRuntimeConfig(c: Config, h: Host): Option<Config> {
    if c.local.None? || c.mode != ExternalGateway || !Valid(c, h) then None
    else if !Valid(LocalRuntime(c), h) then None
    else Some(LocalRuntime(c))
  }

  /** `LocalAppleContainerRuntimeConfig`, with its validation before and after. */
  function LocalAppleContainerRuntimeConfig(c: Config, h: Host): Option<Config> {
    if c.apple.None? || c.mode != ExternalGateway || !Valid(c, h) then None
    else if !Valid(AppleRuntime(c), h) then None
    else Some(AppleRuntime(c))
  }

  /** What `Write` puts in the file: everything but the two runtime marks. */
  function Write(c: Config, h: Host): Option<Config> {
    var d := Defaulted(c, h);
    if Valid(d, h) then Some(d.(localRuntime := false, appleRuntime := false)) else None
  }

  /** `Load` of a file that holds `stored`. */
  function Load(stored: Config, h: Host): Option<Config> {
    var d := Defaulted(stored, h);
    if Valid(d, h) then Some(d) else None
  }

  // ----- Laws -----------------------------------------------------------------------------

  lemma {:induction false} SchedulerDefaultsTwice(s: Scheduler, listen: string, h: Host)
    ensures DefaultedScheduler(DefaultedScheduler(s, listen, h), listen, h) == DefaultedScheduler(s, listen, h)
  {
    hide DefaultInteractive;
  }

  /** Defaulting is idempotent. */
  lemma {:induction false} DefaultsTwice(c: Config, h: Host)
    ensures Defaulted(Defaulted(c, h), h) == Defaulted(c, h)
  {
    hide DefaultedScheduler;
    SchedulerDefaultsTwice(c.responses.scheduler, c.listen, h);
  }

  lemma {:induction false} DefaultsKeepResponses(c: Config, h: Host)
    ensures ValidResponses(Defaulted(c, h), h) <==> ValidResponses(c, h)
  {
    hide DefaultedScheduler, ValidLimits, Loopback;
    SchedulerDefaultsTwice(c.responses.scheduler, c.listen, h);
  }

  lemma {:induction false} DefaultsKeepParts(c: Config, h: Host)
    ensures ValidScope(Defaulted(c, h)) == ValidScope(c)
    ensures ValidUpstream(Defaulted(c, h), h) == ValidUpstream(c, h)
    ensures ValidOwner(Defaulted(c, h)) == ValidOwner(c)
    ensures ValidCatalog(Defaulted(c, h), h) == ValidCatalog(c, h)
    ensures ValidRefresh(Defaulted(c, h), h) == ValidRefresh(c, h)
    ensures CatalogPaths(Defaulted(c, h)) == CatalogPaths(c)
  {
    hide DefaultedScheduler, AuthenticationProfile, CleanAbsolute, IsLocalUrl;
  }

  /** A derived configuration whose only fault is an owner that was left to the default. */
  predicate OwnerLeftOut(c: Config) { Derived(c) && c.catalog.owner == NoOwner }

  /**
   Defaulting keeps validity, and for every durable configuration it also gives none: what is
   valid afterwards was valid before. Only a derived one with no owner gains validity by it.
   */
  lemma {:induction false} DefaultsKeepValidity(c: Config, h: Host)
    ensures Valid(c, h) ==> Valid(Defaulted(c, h), h)
    ensures Valid(Defaulted(c, h), h) && !OwnerLeftOut(c) ==> Valid(c, h)
    ensures OwnerLeftOut(c) ==> !Valid(c, h)
  {
    hide ValidScope, ValidUpstream, ValidResponses, ValidOwner, ValidCatalog, ValidRefresh, Separate, CatalogPaths,
      DefaultedScheduler, CleanAbsolute, IsLocalUrl, Loopback;
    DefaultsKeepParts(c, h);
    DefaultsKeepResponses(c, h);
  }

  /** A valid configuration in external mode is durable. */
  lemma {:induction false} ExternalIsDurable(c: Config, h: Host)
    requires Valid(c, h) && c.mode == ExternalGateway
    ensures !Derived(c)
  {
    hide ValidScope, ValidUpstream, ValidResponses, ValidOwner, ValidCatalog, ValidRefresh, Separate, CatalogPaths;
  }

  /** The local runtime derivation succeeds for every valid enrolled external configuration. */
  lemma {:induction false} LocalDerivationSucceeds(c: Config, h: Host)
    ensures LocalOpenCodexRuntimeConfig(c, h).Some? <==> c.local.Some? && c.mode == ExternalGateway && Valid(c, h)
  {
    hide Loopback, ValidLimits, ValidModelModes, DefaultedScheduler, CleanAbsolute, IsLocalUrl, ValidExternal, Separate;
    if c.local.Some? && c.mode == ExternalGateway && Valid(c, h) {
      ExternalIsDurable(c, h);
    }
  }

  /** And it carries the local profile's endpoint and catalog, no credentials and no other profile. */
  lemma {:induction false} LocalDerivationCarries(c: Config, h: Host)
    requires LocalOpenCodexRuntimeConfig(c, h).Some?
    ensures var d := LocalOpenCodexRuntimeConfig(c, h).value;
            && Valid(d, h) && d.mode == LocalOpenCodexMode
            && d.url == c.local.value.url && IsLocalUrl(d.url) && d.catalog.path == c.local.value.catalog
            && AuthenticationProfile(d.credentials) == Unauthenticated && d.credentials.source == NoCredentials
            && d.apple.None? && !d.probe
            && d.catalog.path != c.catalog.path
            && d.responses == c.responses && d.listen == c.listen
            && LocalOpenCodexRuntimeConfig(d, h).None? && LocalAppleContainerRuntimeConfig(d, h).None?
  {
    hide Loopback, ValidLimits, ValidModelModes, DefaultedScheduler, CleanAbsolute, IsLocalUrl, ValidExternal,
      ValidResponses, ValidCatalog, ValidScope, ValidRefresh, Separate;
    ExternalIsDurable(c, h);
    CatalogsDiffer(c, h);
  }

  lemma {:induction false} AppleDerivationSucceeds(c: Config, h: Host)
    ensures LocalAppleContainerRuntimeConfig(c, h).Some? <==> c.apple.Some? && c.mode == ExternalGateway && Valid(c, h)
  {
    hide Loopback, ValidLimits, ValidModelModes, DefaultedScheduler, CleanAbsolute, IsLocalUrl, ValidExternal, Separate;
    if c.apple.Some? && c.mode == ExternalGateway && Valid(c, h) {
      ExternalIsDurable(c, h);
    }
  }

  lemma {:induction false} AppleDerivationCarries(c: Config, h: Host)
    requires LocalAppleContainerRuntimeConfig(c, h).Some?
    ensures var d := LocalAppleContainerRuntimeConfig(c, h).value;
            && Valid(d, h) && d.mode == LocalAppleContainerMode
            && d.url == APPLE_URL && d.catalog.path == c.apple.value.catalog
            && AuthenticationProfile(d.credentials) == LocalKey && d.credentials.source == Keychain
            && d.credentials.account == c.apple.value.account && d.credentials.file == ""
            && d.local.None? && !d.probe
            && d.catalog.path != c.catalog.path
            && d.responses == c.responses && d.listen == c.listen
            && LocalOpenCodexRuntimeConfig(d, h).None? && LocalAppleContainerRuntimeConfig(d, h).None?
  {
    hide Loopback, ValidLimits, ValidModelModes, DefaultedScheduler, CleanAbsolute, IsLocalUrl, ValidExternal,
      ValidResponses, ValidCatalog, ValidScope, ValidRefresh, Separate;
    ExternalIsDurable(c, h);
    CatalogsDiffer(c, h);
  }

  lemma {:induction false} SeparateMeansDifferent(paths: seq<string>, h: Host)
    requires Separate(paths, h)
    ensures forall i, j :: 0 <= i < j < |paths| ==> paths[i] != paths[j]
  {
    forall i, j | 0 <= i < j < |paths|
      ensures paths[i] != paths[j]
    {
      assert ArtifactsApart(paths[i], paths[j], h);
      assert Artifacts(paths[i])[0] == paths[i] && Artifacts(paths[j])[0] == paths[j];
      assert Apart(paths[i], paths[j], h);
    }
  }

  /** The catalogs a valid durable configuration enrols are pairwise different. */
  lemma {:induction false} CatalogsDiffer(c: Config, h: Host)
    requires Valid(c, h) && !Derived(c)
    ensures c.local.Some? ==> c.local.value.catalog != c.catalog.path
    ensures c.apple.Some? ==> c.apple.value.catalog != c.catalog.path
    ensures c.local.Some? && c.apple.Some? ==> c.local.value.catalog != c.apple.value.catalog
  {
    hide ValidScope, ValidUpstream, ValidResponses, ValidOwner, ValidCatalog, ValidRefresh, ValidLocalProfile,
      ValidAppleProfile, Separate;
    var paths := CatalogPaths(c);
    SeparateMeansDifferent(paths, h);
    assert paths[0] == c.catalog.path;
    if c.local.Some? {
      assert paths[1] == c.local.value.catalog;
    }
    if c.apple.Some? {
      assert paths[|paths| - 1] == c.apple.value.catalog;
    }
  }

  /**
   Writing and loading: a valid durable configuration comes back with its defaults filled in, and
   a derived one that is written never loads.
   */
  lemma {:induction false} WriteThenLoad(c: Config, h: Host)
    requires Write(c, h).Some?
    ensures Load(Write(c, h).value, h) == if Derived(c) then None else Some(Defaulted(c, h))
  {
    hide Valid, Defaulted;
    var d := Defaulted(c, h);
    var stored := Write(c, h).value;
    assert Derived(d) == Derived(c) by { DefaultsKeepMarks(c, h); }
    assert Defaulted(stored, h) == stored by { UnmarkedDefaults(c, h); }
    if Derived(c) {
      DerivedNeverLoads(d, h);
    } else {
      assert stored == d;
    }
  }

  lemma {:induction false} DefaultsKeepMarks(c: Config, h: Host)
    ensures Defaulted(c, h).localRuntime == c.localRuntime && Defaulted(c, h).appleRuntime == c.appleRuntime
  {
    hide DefaultedScheduler;
    assert Defaulted(c, h).localRuntime == c.localRuntime;
  }

  lemma {:induction false} UnmarkedDefaults(c: Config, h: Host)
    ensures var stored := Defaulted(c, h).(localRuntime := false, appleRuntime := false); Defaulted(stored, h) == stored
  {
    hide DefaultedScheduler;
    SchedulerDefaultsTwice(c.responses.scheduler, c.listen, h);
  }

  lemma {:induction false} DerivedNeverLoads(d: Config, h: Host)
    requires Valid(d, h) && Derived(d)
    ensures !Valid(d.(localRuntime := false, appleRuntime := false), h)
  {
    hide ValidScope, ValidResponses, ValidCatalog, ValidRefresh, Separate, CatalogPaths, ValidExternal, ValidLocal;
  }
}
