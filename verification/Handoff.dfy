/**
 Who owns Codex routing after a handoff (`validateHandoffResultOwnership` in
 `cmd/opencodex-relayctl/main.go`): native Codex, the external relay profile or the local one,
 read off the files of a Codex home and the relay configuration.
 */
module Handoff {

  import opened CodexAnswers
  import opened CodexConfig
  import opened CodexConfigLaws
  import opened CodexHome
  import opened CodexHomeLaws
  import RC = RelayConfig
  import Text
  import opened Wrappers

  datatype Ownership = Native | External | LocalOpenCodex

  datatype OwnershipError = LocalProfileUnproven | MatchesMultiple | MatchesNone

  function ListenerUrl(address: string): string { "http://" + address + "/v1" }

  /** The home is managed for exactly this relay profile. */
  predicate ManagedFor(home: Home, ns: Namespace, c: RC.Config) {
    ValidateManaged(home, ns, ListenerUrl(c.listen), ListenerUrl(c.responses.scheduler.interactive), c.catalog.path)
  }

  /** What the check answers, as the source computes it. */
  function OwnershipOf(home: Home, ns: Namespace, c: RC.Config, h: RC.Host): Result<Ownership, OwnershipError> {
    if ValidateNative(home, ns) then Ok(Native)
    else
      var local := RC.LocalOpenCodexRuntimeConfig(c, h);
      if c.local.Some? && local.None? then Err(LocalProfileUnproven)
      else
        var external := ManagedFor(home, ns, c);
        var locally := c.local.Some? && ManagedFor(home, ns, local.value);
        if external && locally then Err(MatchesMultiple)
        else if external then Ok(External)
        else if locally then Ok(LocalOpenCodex)
        else Err(MatchesNone)
  }

  /** `validateHandoffResultOwnership`. */
  method ValidateHandoffResultOwnership(home: Home, ns: Namespace, c: RC.Config, h: RC.Host)
      returns (r: Result<Ownership, OwnershipError>)
    ensures r == OwnershipOf(home, ns, c, h)
  {
    hide ManagedFor, ValidateNative, RC.LocalOpenCodexRuntimeConfig, RC.Valid;
    if ValidateNative(home, ns) {
      return Ok(Native);
    }
    var candidates := [(External, c)];
    if c.local.Some? {
      var local := RC.LocalOpenCodexRuntimeConfig(c, h);
      if local.None? {
        return Err(LocalProfileUnproven);
      }
      candidates := candidates + [(LocalOpenCodex, local.value)];
    }
    var matched: Option<Ownership> := None;
    var index := 0;
    while index < |candidates|
      invariant index <= |candidates|
      invariant matched.Some? <==> exists k :: 0 <= k < index && ManagedFor(home, ns, candidates[k].1)
      invariant matched.Some? ==>
        matched == Some(External) ||
            (index == 2 && matched == Some(LocalOpenCodex) && ManagedFor(home, ns, candidates[1].1))
      invariant matched == Some(External) ==>
        index > 0 && ManagedFor(home, ns, c) && (index == 2 ==> !ManagedFor(home, ns, candidates[1].1))
      invariant index > 0 && ManagedFor(home, ns, c) ==> matched == Some(External)
    {
      if ManagedFor(home, ns, candidates[index].1) {
        if matched.Some? {
          return Err(MatchesMultiple);
        }
        matched := Some(candidates[index].0);
      }
      index := index + 1;
    }
    assert candidates[0] == (External, c);
    assert c.local.Some? ==> candidates[1].1 == RC.LocalOpenCodexRuntimeConfig(c, h).value;
    if matched.None? {
      return Err(MatchesNone);
    }
    r := Ok(matched.value);
  }

  /** The two profiles of a derivable configuration differ in their catalog, so no home is managed for both. */
  lemma {:induction false} NotManagedForBoth(home: Home, ns: Namespace, c: RC.Config, h: RC.Host)
    requires RC.LocalOpenCodexRuntimeConfig(c, h).Some?
    ensures !(ManagedFor(home, ns, c) && ManagedFor(home, ns, RC.LocalOpenCodexRuntimeConfig(c, h).value))
  {
    hide ValidateManaged, RC.Valid, RC.LocalOpenCodexRuntimeConfig;
    RC.LocalDerivationCarries(c, h);
    var d := RC.LocalOpenCodexRuntimeConfig(c, h).value;
    if ManagedFor(home, ns, c) && ManagedFor(home, ns, d) {
      ManagedDeterminesValues(home, ns,
        ListenerUrl(c.listen), ListenerUrl(c.responses.scheduler.interactive), c.catalog.path,
        ListenerUrl(d.listen), ListenerUrl(d.responses.scheduler.interactive), d.catalog.path);
    }
  }

  /**
   Ownership is decided by the files: each answer holds exactly when its own validation does, and
   "matches multiple relay profiles" is unreachable.
   */
  lemma {:induction false} OwnershipIsExclusive(home: Home, ns: Namespace, c: RC.Config, h: RC.Host)
    ensures var r := OwnershipOf(home, ns, c, h); var local := RC.LocalOpenCodexRuntimeConfig(c, h);
            && r != Err(MatchesMultiple)
            && (r == Ok(Native) <==> ValidateNative(home, ns))
            && (r == Ok(External) <==> ManagedFor(home, ns, c) && (c.local.Some? ==> local.Some?))
            && (r == Ok(LocalOpenCodex) <==> c.local.Some? && local.Some? && ManagedFor(home, ns, local.value))
            && (r == Err(LocalProfileUnproven) <==> !ValidateNative(home, ns) && c.local.Some? && local.None?)
  {
    hide ValidateNative, ValidateManaged, RC.Valid, RC.LocalOpenCodexRuntimeConfig;
    var local := RC.LocalOpenCodexRuntimeConfig(c, h);
    NativeExcludes(home, ns, c);
    if local.Some? {
      NativeExcludes(home, ns, local.value);
      NotManagedForBoth(home, ns, c, h);
    }
  }

  lemma {:induction false} NativeExcludes(home: Home, ns: Namespace, c: RC.Config)
    ensures !(ValidateNative(home, ns) && ManagedFor(home, ns, c))
  {
    hide ValidateManaged, ValidateNative;
    NativeExcludesManaged(home, ns, ListenerUrl(c.listen), ListenerUrl(c.responses.scheduler.interactive),
        c.catalog.path);
  }

  /** For every configuration that loads (a file holds no runtime marks), an enrolled local profile is provable. */
  lemma {:induction false} LoadedProfileIsProven(stored: RC.Config, h: RC.Host, home: Home, ns: Namespace)
    requires RC.Load(stored, h).Some? && !RC.Derived(stored)
    ensures OwnershipOf(home, ns, RC.Load(stored, h).value, h) != Err(LocalProfileUnproven)
  {
    hide ValidateNative, ManagedFor, RC.LocalOpenCodexRuntimeConfig;
    var c := RC.Load(stored, h).value;
    RC.LocalDerivationSucceeds(c, h);
    if c.local.Some? {
      LoadedWithProfileIsExternal(stored, h);
    }
  }

  lemma {:induction false} LoadedWithProfileIsExternal(stored: RC.Config, h: RC.Host)
    requires RC.Load(stored, h).Some? && RC.Load(stored, h).value.local.Some? && !RC.Derived(stored)
    ensures RC.Load(stored, h).value.mode == RC.ExternalGateway
  {
    hide RC.ValidScope, RC.ValidUpstream, RC.ValidResponses, RC.ValidOwner, RC.ValidCatalog, RC.ValidRefresh,
      RC.Separate, RC.CatalogPaths, RC.DefaultedScheduler;
  }

  // ----- What enabling and disabling lead to ------------------------------------------

  /** After enabling the external profile, the check finds the external profile. */
  lemma {:induction false} EnabledIsExternal(home: Home, ns: Namespace, c: RC.Config, h: RC.Host)
    requires WellFormed(ns) && (c.local.Some? ==> RC.LocalOpenCodexRuntimeConfig(c, h).Some?)
    requires Carried(ns.own, ListenerUrl(c.listen), ListenerUrl(c.responses.scheduler.interactive), c.catalog.path)
    requires EnabledHome(home, ns, "", "", "").Ok? && !HasMarker(BareOf(home, ns), ns.own)
    ensures var enabled := EnabledHome(home, ns, ListenerUrl(c.listen),
        ListenerUrl(c.responses.scheduler.interactive), c.catalog.path);
            enabled.Ok? && OwnershipOf(enabled.value, ns, c, h) == Ok(External)
  {
    hide EnabledHome, OwnershipOf, ValidateManaged, Carried, HasMarker, BareOf, RC.LocalOpenCodexRuntimeConfig,
      ListenerUrl;
    var g, i := ListenerUrl(c.listen), ListenerUrl(c.responses.scheduler.interactive);
    EnableAnyValues(home, ns, g, i, c.catalog.path);
    EnableThenValidate(home, ns, g, i, c.catalog.path);
    OwnershipIsExclusive(EnabledHome(home, ns, g, i, c.catalog.path).value, ns, c, h);
  }

  /** After enabling the derived local profile, the check against the durable one finds the local profile. */
  lemma {:induction false} EnabledIsLocal(home: Home, ns: Namespace, c: RC.Config, h: RC.Host)
    requires WellFormed(ns) && c.local.Some? && RC.LocalOpenCodexRuntimeConfig(c, h).Some?
    requires Carried(ns.own, ListenerUrl(c.listen), ListenerUrl(c.responses.scheduler.interactive),
        c.local.value.catalog)
    requires EnabledHome(home, ns, "", "", "").Ok? && !HasMarker(BareOf(home, ns), ns.own)
    ensures var enabled := EnabledHome(home, ns, ListenerUrl(c.listen),
        ListenerUrl(c.responses.scheduler.interactive), c.local.value.catalog);
            enabled.Ok? && OwnershipOf(enabled.value, ns, c, h) == Ok(LocalOpenCodex)
  {
    hide EnabledHome, OwnershipOf, ValidateManaged, Carried, HasMarker, BareOf, RC.LocalOpenCodexRuntimeConfig,
      ListenerUrl, RC.Valid;
    var g, i := ListenerUrl(c.listen), ListenerUrl(c.responses.scheduler.interactive);
    EnableAnyValues(home, ns, g, i, c.local.value.catalog);
    EnableThenValidate(home, ns, g, i, c.local.value.catalog);
    RC.LocalDerivationCarries(c, h);
    OwnershipIsExclusive(EnabledHome(home, ns, g, i, c.local.value.catalog).value, ns, c, h);
  }

  /** After enabling any profile and disabling it again, routing is native. */
  lemma {:induction false} DisabledIsNative(home: Home, ns: Namespace, g: string, i: string, cat: string,
      c: RC.Config, h: RC.Host)
    requires WellFormed(ns) && Carried(ns.own, g, i, cat)
    requires EnabledHome(home, ns, g, i, cat).Ok? && EnabledHome(home, ns, "", "", "").Ok? &&
        !HasMarker(BareOf(home, ns), ns.own)
    ensures var disabled := DisabledHome(EnabledHome(home, ns, g, i, cat).value, ns);
            disabled.Ok? && OwnershipOf(disabled.value, ns, c, h) == Ok(Native)
  {
    hide EnabledHome, DisabledHome, OwnershipOf, ValidateManaged, Carried, HasMarker, BareOf,
      RC.LocalOpenCodexRuntimeConfig, ValidateNative, Restored, RootKeyExists, RootString;
    EnableThenDisable(home, ns, g, i, cat);
    EnableAnyValues(home, ns, g, i, cat);
    var bare := BareOf(home, ns);
    RestoredIsNative(bare, ns);
    var disabled := DisabledHome(EnabledHome(home, ns, g, i, cat).value, ns).value;
    assert disabled == Home(Regular(Restored(bare), true), Absent, home.foreignProfile);
    OwnershipIsExclusive(disabled, ns, c, h);
  }

  lemma {:induction false} RestoredIsNative(bare: string, ns: Namespace)
    requires WellFormed(ns) && !HasMarker(bare, ns.own) && !HasMarker(bare, ns.other)
    requires !RootKeyExists(bare, BASE_URL) && !RootKeyExists(bare, CATALOG)
    requires RootString(bare, PROVIDER).Some? ==> RootString(bare, PROVIDER).value == "openai"
    ensures ValidateNative(Home(Regular(Restored(bare), true), Absent, Absent), ns)
  {
    hide Text.IndexOf, RootAssignment, Unquote, HasHeader, Text.Normalise, Restored, RootKeyExists, RootString;
    var text := Text.Normalise(Restored(bare));
    RestoredMarkerFree(bare, ns.own);
    NormaliseMarkers(Restored(bare), ns.own);
    RestoredReadsClean(bare, ns);
    assert RemoveManaged(text, ns.own) == Ok(text);
  }

  lemma {:induction false} RestoredMarkerFree(bare: string, owner: Owner)
    requires WellMarked(owner) && !HasMarker(bare, owner)
    ensures !HasMarker(Restored(bare), owner)
  {
    hide Text.IndexOf, HasHeader;
    PartsMarkerFree(bare, owner.begin);
    PartsMarkerFree(bare, owner.end);
  }

  /** The text of a home without the owner's marker is what a block goes into. */
  lemma {:induction false} NativeText(home: Home, ns: Namespace)
    requires ValidateNative(home, ns)
    ensures EnabledHome(home, ns, "", "", "").Ok? && !HasMarker(BareOf(home, ns), ns.own)
  {
    hide Text.IndexOf, RootAssignment, Unquote, InsertBlock, Block, RenderProfile, ValidProfile, Text.Normalise;
    NativeCanEnable(home, ns, "", "", "");
  }

  /**
   The whole way from native routing: every home that validates as native can be enabled for a relay
   profile whose values the files carry, is then owned by that profile, can be disabled, and is
   native again.
   */
  lemma {:induction false} NativeRoundTrip(home: Home, ns: Namespace, c: RC.Config, h: RC.Host)
    requires WellFormed(ns) && ValidateNative(home, ns)
    requires c.local.Some? ==> RC.LocalOpenCodexRuntimeConfig(c, h).Some?
    requires Carried(ns.own, ListenerUrl(c.listen), ListenerUrl(c.responses.scheduler.interactive), c.catalog.path)
    ensures var enabled := EnabledHome(home, ns, ListenerUrl(c.listen),
        ListenerUrl(c.responses.scheduler.interactive), c.catalog.path);
            && enabled.Ok? && OwnershipOf(enabled.value, ns, c, h) == Ok(External)
            && DisabledHome(enabled.value, ns).Ok?
            && OwnershipOf(DisabledHome(enabled.value, ns).value, ns, c, h) == Ok(Native)
  {
    hide EnabledHome, DisabledHome, OwnershipOf, Carried, HasMarker, BareOf, RC.LocalOpenCodexRuntimeConfig,
      ValidateNative, ListenerUrl;
    NativeText(home, ns);
    EnabledIsExternal(home, ns, c, h);
    DisabledIsNative(home, ns, ListenerUrl(c.listen), ListenerUrl(c.responses.scheduler.interactive), c.catalog.path,
      c, h);
  }
}
