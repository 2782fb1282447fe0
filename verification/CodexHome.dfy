/**
 One Codex home as the routing code sees it: the configuration file, the owner's
 interactive side profile and the other owner's side profile. Inspection, the two
 validations, and the two-file transactions that enable and disable relay routing
 (`codexconfig/config.go`).
 */
module CodexHome {

  import opened CodexConfig
  import opened Text
  import opened Wrappers

  /** A path: absent, a readable regular file (owner-only or not), or anything else. */
  datatype Node = Absent | Regular(text: string, private: bool) | Irregular

  datatype Home = Home(config: Node, profile: Node, foreignProfile: Node)

  datatype RouteError =
    | Unreadable
    | Edit(error: EditError)
    | ProfileUnsafe
    | ProfileNotManaged
    | ForeignHome
    | Drifted
    | WriteFailed

  datatype RoutingInspection = RoutingInspection(
    managedRoot: bool,
    interactiveProfileExists: bool,
    interactiveProfileManaged: bool,
    foreignManagedRoot: bool,
    foreignInteractiveProfile: bool,
    unmanagedOpenAIBaseURL: bool,
    unmanagedModelCatalog: bool,
    unmanagedModelProvider: bool)

  /** `readOptional`: an absent file reads as the empty text, CRLF reads as LF. */
  function ReadOptional(node: Node): Result<string, RouteError> {
    match node
    case Absent => Ok("")
    case Regular(text, _) => Ok(Normalise(text))
    case Irregular => Err(Unreadable)
  }

  /** `preflightInteractiveProfilePath`. */
  predicate ProfileSafe(node: Node) {
    node.Absent? || (node.Regular? && node.private)
  }

  function RenderProfile(baseUrl: string, catalog: string, owner: Owner): string {
    Join([owner.profileMarker, Assignment(BASE_URL, baseUrl), Assignment(CATALOG, catalog)]) + "\n"
  }

  function TrimFinalNewline(s: string): string {
    if s != "" && s[|s| - 1] == '\n' then s[..|s| - 1] else s
  }

  predicate LooksAssigned(line: string, key: string) {
    key + " = \"" <= line && line[|line| - 1] == '"'
  }

  /** `validInteractiveProfile`. */
  predicate ValidProfile(content: string, owner: Owner) {
    var lines := Split(TrimFinalNewline(Normalise(content)));
    && |lines| == 3 && lines[0] == owner.profileMarker
    && LooksAssigned(lines[1], BASE_URL) && LooksAssigned(lines[2], CATALOG)
  }

  /** The root part of the inspection, given the text without the owner's block. */
  function InspectRoot(bare: string, ns: Namespace, managed: bool): RoutingInspection {
    var provider := RootString(bare, PROVIDER);
    RoutingInspection(managed, false, false, HasMarker(bare, ns.other), false,
                      RootKeyExists(bare, BASE_URL), RootKeyExists(bare, CATALOG),
                      provider.Some? && provider.value != "openai")
  }

  /** `InspectRoutingForOwner`. */
  function InspectRouting(home: Home, ns: Namespace): Result<RoutingInspection, RouteError> {
    var content := ReadOptional(home.config);
    if content.Err? then Err(Unreadable)
    else
      var removed := RemoveManaged(content.value, ns.own);
      if removed.Err? then Err(Edit(removed.error))
      else
        var root := InspectRoot(removed.value, ns, HasMarker(content.value, ns.own));
        if !ProfileSafe(home.profile) then Err(ProfileUnsafe)
        else if home.profile.Regular? && !ValidProfile(home.profile.text, ns.own) then Err(ProfileNotManaged)
        else if !ProfileSafe(home.foreignProfile) then Err(ProfileUnsafe)
        else
          Ok(root.(interactiveProfileExists := home.profile.Regular?,
                   interactiveProfileManaged := home.profile.Regular?,
                   foreignInteractiveProfile := home.foreignProfile.Regular?))
  }

  predicate ForeignOrUnmanaged(i: RoutingInspection) {
    || i.foreignManagedRoot || i.foreignInteractiveProfile
    || i.unmanagedOpenAIBaseURL || i.unmanagedModelCatalog || i.unmanagedModelProvider
  }

  /** `ValidateNativeRoutingForOwner`. */
  predicate ValidateNative(home: Home, ns: Namespace) {
    var inspection := InspectRouting(home, ns);
    && inspection.Ok?
    && !inspection.value.managedRoot && !inspection.value.interactiveProfileExists
    && !ForeignOrUnmanaged(inspection.value)
  }

  /** The text from the first begin marker to the end of the first end marker. */
  function ManagedSpan(content: string, owner: Owner): Option<string> {
    var start := IndexOf(content, owner.begin);
    var end := IndexOf(content, owner.end);
    if start < 0 || end < start then None else Some(content[start..end + |owner.end|])
  }

  /** `ValidateManagedRoutingForOwner`. */
  predicate ValidateManaged(home: Home, ns: Namespace, generalUrl: string, interactiveUrl: string, catalog: string) {
    var inspection := InspectRouting(home, ns);
    && inspection.Ok?
    && inspection.value.managedRoot && inspection.value.interactiveProfileManaged
    && !ForeignOrUnmanaged(inspection.value)
    && ManagedSpan(ReadOptional(home.config).value, ns.own) == Some(Join(Block(ns.own, generalUrl, catalog)))
    && home.profile.text == RenderProfile(interactiveUrl, catalog, ns.own)
  }

  /** What `EnableWithInteractiveProfileForOwner` writes when every check and write succeeds. */
  function EnabledHome(home: Home, ns: Namespace, generalUrl: string, interactiveUrl: string, catalog: string)
    : Result<Home, RouteError>
  {
    var inspection := InspectRouting(home, ns);
    if inspection.Err? then Err(inspection.error)
    else if inspection.value.foreignManagedRoot || inspection.value.foreignInteractiveProfile then Err(ForeignHome)
    else
      var content := ReadOptional(home.config).value;
      var updated := PrepareEnable(content, ns, generalUrl, catalog);
      if updated.Err? then Err(Edit(updated.error))
      else Ok(home.(config := Regular(updated.value, true),
                    profile := Regular(RenderProfile(interactiveUrl, catalog, ns.own), true)))
  }

  /** The configuration `DisableForOwner` leaves; it works on the raw text, not the normalised one. */
  function DisabledConfig(config: Node, owner: Owner): Result<Node, RouteError> {
    match config
    case Irregular => Err(Unreadable)
    case Absent => Ok(Absent)
    case Regular(text, private) =>
      var updated := RemoveManaged(text, owner);
      if updated.Err? then Err(Edit(updated.error))
      else if updated.value == text then Ok(config)
      else Ok(Regular(updated.value, true))
  }

  /** What `DisableWithInteractiveProfileForOwner` leaves when every check and write succeeds. */
  function DisabledHome(home: Home, ns: Namespace): Result<Home, RouteError> {
    var inspection := InspectRouting(home, ns);
    if inspection.Err? then Err(inspection.error)
    else if inspection.value.foreignManagedRoot || inspection.value.foreignInteractiveProfile then Err(ForeignHome)
    else
      var config := DisabledConfig(home.config, ns.own);
      if config.Err? then Err(config.error) else Ok(home.(config := config.value, profile := Absent))
  }

  // ----- The two-file transactions ------------------------------------------

  /** Which of the file-system writes of one call succeed. */
  datatype Writes = Writes(config: bool, profile: bool, restore: bool)

  class Files {
    var config: Node
    var profile: Node
    var foreignProfile: Node

    constructor (home: Home)
      ensures View() == home
    {
      config, profile, foreignProfile := home.config, home.profile, home.foreignProfile;
    }

    ghost function View(): Home
      reads this
    {
      Home(config, profile, foreignProfile)
    }

    /**
     `EnableWithInteractiveProfileForOwner`: write the configuration, then the profile; if the
     profile cannot be written, put the configuration back.
     */
    method EnableWithInteractiveProfile(ns: Namespace, generalUrl: string, interactiveUrl: string, catalog: string,
        writes: Writes)
      returns (error: Option<RouteError>)
      modifies this`config, this`profile
      ensures var before := old(View()); var target := EnabledHome(before, ns, generalUrl, interactiveUrl, catalog);
              && (error.None? <==> target.Ok? && writes.config && writes.profile)
              && (error.None? ==> View() == target.value)
              && (target.Err? ==> error == Some(target.error) && View() == before)
              && (error.Some? ==> profile == before.profile)
              && (error.Some? && writes.restore ==> SameText(config, before.config))
    {
      hide RemoveManaged, HasMarker, InspectRoot, ValidProfile, Admit, InsertBlock, RenderProfile, Block;
      var home := Home(config, profile, foreignProfile);
      var inspection := InspectRouting(home, ns);
      if inspection.Err? {
        return Some(inspection.error);
      }
      if inspection.value.foreignManagedRoot || inspection.value.foreignInteractiveProfile {
        return Some(ForeignHome);
      }
      var content := ReadOptional(config).value;
      var preflight := PrepareEnable(content, ns, "", "");
      if preflight.Err? {
        return Some(Edit(preflight.error));
      }
      var baseSnapshot := config;
      var updated := PrepareEnable(content, ns, generalUrl, catalog);
      if updated.Err? {
        return Some(Edit(updated.error));
      }
      if !writes.config {
        return Some(WriteFailed);
      }
      config := Regular(updated.value, true);
      if !writes.profile {
        if writes.restore {
          config := RestoreOptional(baseSnapshot);
        }
        return Some(WriteFailed);
      }
      profile := Regular(RenderProfile(interactiveUrl, catalog, ns.own), true);
      error := None;
    }

    /**
     `DisableWithInteractiveProfileForOwner`: rewrite the configuration without the block, then
     remove the profile; if the profile cannot be removed, put the configuration back.
     */
    method DisableWithInteractiveProfile(ns: Namespace, writes: Writes) returns (error: Option<RouteError>)
      modifies this`config, this`profile
      ensures var before := old(View()); var target := DisabledHome(before, ns);
              && (target.Err? ==> error == Some(target.error) && View() == before)
              && (target.Ok? && writes.config && writes.profile ==> error.None?)
              && (error.None? ==> View() == target.value)
              && (error.Some? ==> profile == before.profile)
              && (error.Some? && writes.restore ==> SameText(config, before.config))
    {
      hide RemoveManaged, HasMarker, InspectRoot, ValidProfile, DisabledConfig;
      var home := Home(config, profile, foreignProfile);
      var inspection := InspectRouting(home, ns);
      if inspection.Err? {
        return Some(inspection.error);
      }
      if inspection.value.foreignManagedRoot || inspection.value.foreignInteractiveProfile {
        return Some(ForeignHome);
      }
      var baseSnapshot := config;
      var disabled := DisabledConfig(config, ns.own);
      if disabled.Err? {
        return Some(disabled.error);
      }
      if disabled.value != config {
        if !writes.config {
          return Some(WriteFailed);
        }
        config := disabled.value;
      }
      if profile.Regular? {
        if !writes.profile {
          if writes.restore {
            config := RestoreOptional(baseSnapshot);
          }
          return Some(WriteFailed);
        }
        profile := Absent;
      }
      error := None;
    }
  }

  /** `restoreOptional`: the same text again, now with owner-only permissions, or no file. */
  function RestoreOptional(snapshot: Node): Node {
    if snapshot.Regular? then Regular(snapshot.text, true) else snapshot
  }

  /** The same file up to its permissions. */
  predicate SameText(a: Node, b: Node) {
    RestoreOptional(a) == RestoreOptional(b)
  }
}
