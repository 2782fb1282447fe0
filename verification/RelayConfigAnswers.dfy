/**
 What a valid relay configuration may be changed to. Each law takes a configuration that is valid,
 replaces one group of its fields by any values, and says exactly when the result is valid.
 */
module RelayConfigAnswers {

  import opened RelayConfig
  import opened Wrappers

  // ----- The configuration `NewDefault` builds -------------------------------------------

  const DEFAULT_LISTEN := "127.0.0.1:18180"
  const DEFAULT_INTERACTIVE := "127.0.0.1:18182"

  /** `NewDefault`, given the two default paths. */
  function NewDefault(upstream: string, source: Source, catalog: string, file: string, h: Host): Config {
    var scheduler := Scheduler("", 0, 0, 0, 0, 0, 0, 0, 0);
    Defaulted(
      Config(NoScope, DEFAULT_LISTEN, ExternalGateway, upstream, false,
             Credentials(source, file, "", NoProfile, false), Responses(Passthrough, map[], scheduler),
             Catalog(RelayOwner, catalog, "10m", false, "", "codex"), false, None, None, false, false),
      h)
  }

  /** The host parses the two default listeners and ten minutes as what they are. */
  predicate ParsesDefaults(h: Host) {
    && h.split(DEFAULT_LISTEN) == Some(("127.0.0.1", "18180"))
    && h.split(DEFAULT_INTERACTIVE) == Some(("127.0.0.1", "18182"))
    && h.seconds("10m") == Some(600)
  }

  lemma {:induction false} DefaultPorts()
    ensures IsDigits("18180") && Decimal("18180") == 18180 && IsDigits("18182") && Decimal("18182") == 18182
  {
    assert IsDigits("18180") && IsDigits("18182");
    FivePlaces("18180");
    FivePlaces("18182");
  }

  lemma {:induction false} FivePlaces(s: string)
    requires IsDigits(s) && |s| == 5
    ensures Decimal(s) == 10000 * (s[0] as int - 48) + 1000 * (s[1] as int - 48) + 100 * (s[2] as int - 48) +
                          10 * (s[3] as int - 48) + (s[4] as int - 48)
  {
    assert s[..4][..3] == s[..3] && s[..3][..2] == s[..2] && s[..2][..1] == s[..1] && s[..1][..0] == "";
    assert Decimal(s[..1]) == s[0] as int - 48;
    assert Decimal(s[..2]) == 10 * Decimal(s[..1]) + (s[1] as int - 48);
    assert Decimal(s[..3]) == 10 * Decimal(s[..2]) + (s[2] as int - 48);
    assert Decimal(s[..4]) == 10 * Decimal(s[..3]) + (s[3] as int - 48);
  }

  /** The default configuration is valid exactly for a canonical HTTPS gateway and a usable credential source. */
  lemma {:induction false} DefaultIsValid(upstream: string, source: Source, catalog: string, file: string, h: Host)
    requires ParsesDefaults(h)
    ensures Valid(NewDefault(upstream, source, catalog, file, h), h) <==>
              && upstream != "" && h.normalize(upstream) == Some(upstream) && h.secure(upstream) && catalog != ""
              && (source == NoCredentials || source == Keychain || (source == CredentialFile && file != ""))
    ensures NewDefault(upstream, source, catalog, file, h).responses.scheduler ==
            Scheduler(DEFAULT_INTERACTIVE, 8, 24, 536870912, 60000, 4, 1, 2, 16)
  {
    hide Decimal, IsDigits, Separate;
    DefaultPorts();
    var c := NewDefault(upstream, source, catalog, file, h);
    assert c.responses.scheduler.interactive == DEFAULT_INTERACTIVE;
    assert Loopback(DEFAULT_LISTEN, h) == Some(("127.0.0.1", 18180));
    assert Loopback(DEFAULT_INTERACTIVE, h) == Some(("127.0.0.1", 18182));
    assert CatalogPaths(c) == [catalog];
    OneIsSeparate(catalog, h);
  }

  lemma {:induction false} OneIsSeparate(path: string, h: Host)
    ensures Separate([path], h)
  {}

  // ----- One group of fields at a time ------------------------------------------------------

  /** Zero stands for the default; anything else must be in range. */
  predicate Within(value: int, low: int, high: int) { value == 0 || low <= value <= high }

  /** The scheduler limits, for a listener that stays as it is. */
  lemma {:induction false} LimitsExactly(c: Config, s: Scheduler, h: Host)
    requires Valid(c, h) && s.interactive == c.responses.scheduler.interactive
    ensures Valid(c.(responses := c.responses.(scheduler := s)), h) <==>
              && Within(s.classifications, 1, 64) && Within(s.pending, 1, 256)
              && Within(s.pendingBytes, 33554432, 17179869184)
              && Within(s.queueTimeout, 1000, 300000) && Within(s.general, 1, 64) && Within(s.reserved, 1, 16)
              && Within(s.transforms, 1, 16) && Within(s.deliveries, 1, 256)
  {
    hide ValidScope, ValidUpstream, ValidOwner, ValidCatalog, ValidLocalProfile, ValidAppleProfile, Separate,
      ValidRefresh, ValidModelModes, Loopback, DefaultInteractive;
    var d := c.(responses := c.responses.(scheduler := s));
    SameElsewhere(c, d, h);
    SameModes(c.responses, d.responses, h);
  }

  /** Everything but the responses is judged without them. */
  lemma {:induction false} SameElsewhere(c: Config, d: Config, h: Host)
    requires d == c.(responses := d.responses)
    ensures ValidScope(d) == ValidScope(c) && ValidUpstream(d, h) == ValidUpstream(c, h)
    ensures ValidOwner(d) == ValidOwner(c) && ValidCatalog(d, h) == ValidCatalog(c, h)
    ensures ValidLocalProfile(d, h) == ValidLocalProfile(c, h) && ValidAppleProfile(d, h) == ValidAppleProfile(c, h)
    ensures ValidRefresh(d, h) == ValidRefresh(c, h) && CatalogPaths(d) == CatalogPaths(c)
  {
    hide CleanAbsolute, AuthenticationProfile, IsLocalUrl;
  }

  lemma {:induction false} SameModes(a: Responses, b: Responses, h: Host)
    requires a == b.(scheduler := a.scheduler)
    ensures ValidModelModes(a, h) == ValidModelModes(b, h)
  {}

  /** Both listeners of a production relay: numeric loopback addresses that differ. */
  lemma {:induction false} ListenersExactly(c: Config, listen: string, interactive: string, h: Host)
    requires Valid(c, h) && EffectiveScope(c.scope) == Production && interactive != ""
    ensures var d := c.(listen := listen,
                        responses := c.responses.(scheduler := c.responses.scheduler.(interactive := interactive)));
            Valid(d, h) <==>
              && listen != "" && Loopback(listen, h).Some? && Loopback(interactive, h).Some?
              && Loopback(listen, h) != Loopback(interactive, h)
  {
    hide Separate, ValidModelModes, Loopback, CleanAbsolute, IsLocalUrl, ValidUpstream;
    var d := c.(listen := listen,
      responses := c.responses.(scheduler := c.responses.scheduler.(interactive := interactive)));
    SameModes(c.responses, d.responses, h);
    assert CatalogPaths(d) == CatalogPaths(c);
    SameUpstream(c, d, h);
  }

  /** The upstream is judged by mode, URL, credentials and the Apple profile. */
  lemma {:induction false} SameUpstream(c: Config, d: Config, h: Host)
    requires c.mode == d.mode && c.url == d.url && c.credentials == d.credentials
    requires c.apple == d.apple && c.appleRuntime == d.appleRuntime
    ensures ValidUpstream(d, h) == ValidUpstream(c, h)
  {
    hide AuthenticationProfile, IsLocalUrl;
  }

  /** The interactive listener, where it is left out, is on the loopback host of the primary one. */
  lemma {:induction false} InteractiveFollows(c: Config, host: string, port: int, h: Host)
    requires Loopback(c.listen, h) == Some((host, port))
    ensures var interactive := Defaulted(c, h).responses.scheduler.interactive;
            && (c.responses.scheduler.interactive != "" ==> interactive == c.responses.scheduler.interactive)
            && (c.responses.scheduler.interactive == "" && host == "127.0.0.1" ==> interactive == "127.0.0.1:18182")
            && (c.responses.scheduler.interactive == "" && host == "::1" ==> interactive == "[::1]:18182")
    ensures host == "127.0.0.1" || host == "::1"
  {
    hide Decimal, IsDigits;
    assert "::1"[0] == ':' && "127.0.0.1"[0] == '1';
  }

  /** A listener is a loopback host and a decimal port from 1 to 65535, and nothing else. */
  lemma {:induction false} LoopbackExactly(address: string, host: string, port: int, h: Host)
    ensures Loopback(address, h) == Some((host, port)) <==>
              exists digits :: IsDigits(digits) && h.split(address) == Some((host, digits)) &&
                Decimal(digits) == port && host in {"127.0.0.1", "::1"} && 0 < port < 65536
  {
    hide Decimal, IsDigits;
  }

  /** URL and credentials of an external gateway. */
  predicate GatewayOk(url: string, k: Credentials, h: Host) {
    var named := k.profile != NoProfile;
    var cloudflare := k.profile == CloudflareAndGatewayKey || (!named && k.source != NoCredentials);
    var open := k.profile == Unauthenticated || (!named && k.source == NoCredentials);
    && url != "" && h.normalize(url) == Some(url)
    && (cloudflare || open || k.profile == GatewayKey)
    && (k.source == Keychain || (k.source == CredentialFile && k.file != "") || (k.source == NoCredentials && open))
    && (k.allowInsecure <==> !h.secure(url))
    && (cloudflare ==> h.secure(url))
  }

  lemma {:induction false} GatewayExactly(c: Config, url: string, k: Credentials, h: Host)
    requires Valid(c, h) && EffectiveMode(c.mode) == ExternalGateway
    ensures Valid(c.(url := url, credentials := k), h) <==> GatewayOk(url, k, h)
  {
    hide Separate, ValidModelModes, Loopback, ValidLimits, CleanAbsolute, IsLocalUrl, DefaultedScheduler;
  }

  /** So Cloudflare credentials never leave over plain HTTP, and plain HTTP is never used unacknowledged. */
  lemma {:induction false} EgressIsSafe(c: Config, h: Host)
    requires Valid(c, h)
    ensures match EffectiveMode(c.mode)
            case ExternalGateway => GatewayOk(c.url, c.credentials, h)
            case LocalOpenCodexMode => c.url in {IPV4_URL, IPV6_URL} && c.credentials.source == NoCredentials
            case LocalAppleContainerMode =>
              && c.url == APPLE_URL && c.credentials.source == Keychain && c.credentials.profile == LocalKey
              && c.credentials.file == "" && c.appleRuntime
            case _ => false
  {
    hide Separate, ValidModelModes, Loopback, ValidLimits, CleanAbsolute, DefaultedScheduler, ValidCatalog;
    if EffectiveMode(c.mode) == ExternalGateway {
      GatewayExactly(c, c.url, c.credentials, h);
      assert c.(url := c.url, credentials := c.credentials) == c;
    }
  }

  /** Websocket mode and per-model modes. */
  lemma {:induction false} ModesExactly(c: Config, w: WebSocket, modes: map<string, ModelMode>, h: Host)
    requires Valid(c, h)
    ensures Valid(c.(responses := c.responses.(webSocket := w, modelModes := modes)), h) <==>
              && (w == NoWebSocket || w == Passthrough || w == HttpFallback)
              && (modes != map[] ==> w == HttpFallback)
              && (forall m :: m in modes ==> m != "" && h.trim(m) == m && modes[m] == BoundedJson)
              && (forall m, n :: m in modes && n in modes && m != n ==> h.fold(m) != h.fold(n))
  {
    hide ValidScope, ValidUpstream, ValidOwner, ValidCatalog, ValidLocalProfile, ValidAppleProfile, Separate,
      ValidRefresh, Loopback, DefaultInteractive, ValidLimits, DefaultedScheduler;
    SameElsewhere(c, c.(responses := c.responses.(webSocket := w, modelModes := modes)), h);
  }

  /** The catalog refresh interval and the probe. */
  lemma {:induction false} RefreshExactly(c: Config, interval: string, probe: bool, h: Host)
    requires Valid(c, h)
    ensures Valid(c.(catalog := c.catalog.(refresh := interval), probe := probe), h) <==>
              && h.seconds(interval).Some? && h.seconds(interval).value >= 60
              && (probe ==> EffectiveMode(c.mode) == ExternalGateway)
  {
    hide Separate, ValidModelModes, Loopback, ValidLimits, CleanAbsolute, AuthenticationProfile, IsLocalUrl,
      ValidUpstream, DefaultedScheduler;
    var d := c.(catalog := c.catalog.(refresh := interval), probe := probe);
    SameUpstream(c, d, h);
    assert CatalogPaths(d) == CatalogPaths(c);
  }

  /** Enrolling a local profile in a durable production configuration. */
  lemma {:induction false} LocalEnrolmentExactly(c: Config, p: LocalProfile, h: Host)
    requires Valid(c, h) && !Derived(c) && c.local.None? && c.apple.None? && EffectiveScope(c.scope) == Production
    ensures Valid(c.(local := Some(p)), h) <==>
              && EffectiveMode(c.mode) == ExternalGateway && p.url in {IPV4_URL, IPV6_URL}
              && p.catalog != "" && CleanAbsolute(p.catalog, h) && CleanAbsolute(c.catalog.path, h)
              && ArtifactsApart(c.catalog.path, p.catalog, h)
  {
    hide ValidModelModes, Loopback, ValidLimits, CleanAbsolute, AuthenticationProfile, ArtifactsApart,
      ValidUpstream, DefaultedScheduler, Separate;
    var d := c.(local := Some(p));
    SameUpstream(c, d, h);
    assert CatalogPaths(d) == [c.catalog.path, p.catalog];
    TwoSeparate(c.catalog.path, p.catalog, h);
  }

  lemma {:induction false} TwoSeparate(a: string, b: string, h: Host)
    ensures Separate([a, b], h) <==> ArtifactsApart(a, b, h)
  {
    hide ArtifactsApart;
    assert [a, b][0] == a && [a, b][1] == b;
  }

  /** Enrolling the Apple profile, likewise. */
  lemma {:induction false} AppleEnrolmentExactly(c: Config, p: AppleProfile, h: Host)
    requires Valid(c, h) && !Derived(c) && c.local.None? && c.apple.None? && EffectiveScope(c.scope) == Production
    ensures Valid(c.(apple := Some(p)), h) <==>
              && EffectiveMode(c.mode) == ExternalGateway && p.url == APPLE_URL
              && p.catalog != "" && CleanAbsolute(p.catalog, h) && h.base(p.catalog) == APPLE_CATALOG
              && h.trim(p.account) == p.account
              && ArtifactsApart(c.catalog.path, p.catalog, h)
  {
    hide ValidModelModes, Loopback, ValidLimits, CleanAbsolute, AuthenticationProfile, ArtifactsApart,
      DefaultedScheduler, Separate;
    var d := c.(apple := Some(p));
    assert CatalogPaths(d) == [c.catalog.path, p.catalog];
    TwoSeparate(c.catalog.path, p.catalog, h);
  }

  lemma {:induction false} UpstreamModes(c: Config, h: Host)
    requires ValidUpstream(c, h)
    ensures EffectiveMode(c.mode) in {ExternalGateway, LocalOpenCodexMode, LocalAppleContainerMode}
    ensures EffectiveMode(c.mode) == LocalAppleContainerMode ==> c.appleRuntime
  {
    hide ValidExternal, ValidLocal;
  }

  /** Who may own the catalog depends on the mode, and a derived runtime names its owner. */
  lemma {:induction false} OwnerExactly(c: Config, owner: Owner, h: Host)
    requires Valid(c, h)
    ensures Valid(c.(catalog := c.catalog.(owner := owner)), h) <==>
              if Derived(c) then owner == RelayOwner
              else if EffectiveMode(c.mode) == ExternalGateway then owner == RelayOwner || owner == NoOwner
              else owner == RemoteManager
  {
    hide Separate, ValidModelModes, Loopback, ValidLimits, CleanAbsolute, AuthenticationProfile, IsLocalUrl,
      DefaultedScheduler, ValidUpstream;
    var d := c.(catalog := c.catalog.(owner := owner));
    SameUpstream(c, d, h);
    assert CatalogPaths(d) == CatalogPaths(c);
    UpstreamModes(c, h);
  }

  /** A production relay becomes a development one exactly in the development namespace. */
  lemma {:induction false} DevelopmentExactly(c: Config, h: Host)
    requires Valid(c, h) && EffectiveScope(c.scope) == Production && !Derived(c) && c.apple.None?
    ensures Valid(c.(scope := LocalDevelopment), h) <==>
              && c.listen == DEVELOPMENT_LISTEN
              && DefaultedScheduler(c.responses.scheduler, c.listen, h).interactive == DEVELOPMENT_INTERACTIVE
              && CleanAbsolute(c.catalog.path, h) && h.base(c.catalog.path) == DEVELOPMENT_EXTERNAL_CATALOG
              && (c.local.Some? ==> h.base(c.local.value.catalog) == DEVELOPMENT_LOCAL_CATALOG)
  {
    hide Separate, ValidModelModes, Loopback, ValidLimits, CleanAbsolute, AuthenticationProfile, IsLocalUrl,
      DefaultedScheduler, ValidUpstream;
    var d := c.(scope := LocalDevelopment);
    SameUpstream(c, d, h);
    assert CatalogPaths(d) == CatalogPaths(c);
  }
}
