/**
 The native-repair classifier (`codexconfig/native_repair.go`) and its agreement with the
 independent routing inspection: which homes are clean, and what a disable makes of a home
 the local relay owns.
 */
module NativeRepair {

  import opened CodexConfig
  import opened CodexConfigLaws
  import opened CodexHome
  import opened Text
  import opened Wrappers

  const SECTION_MARKER := "# Auto-injected by opencodex"

  datatype Kind = StateOnly | LocalRelay | OpenCodex | Unavailable

  datatype Reason =
    | NativeRoutingClean
    | LocalRelayOwned
    | OpenCodexOwned
    | RelayMarkerIncomplete
    | ForeignRelayOwner
    | ManagedArtifactInvalid
    | MixedRoutingOwners
    | UnmanagedRoutingOverride

  datatype Inspection = Inspection(kind: Kind, openAIBaseURL: bool, modelCatalog: bool, reason: Reason)

  /** What a classifier says about the root lines: owned by OpenCodex, and set by somebody else. */
  datatype Claims = Claims(owned: bool, unmanaged: bool)

  // ----- Classifying the root lines ----------------------------------------

  /** `filepath.Base` on a slash-separated path. */
  function Base(path: string): string {
    if path == "" then "."
    else
      var p := DropTrailingSlashes(path);
      if p == "" then "/" else AfterLastSlash(p)
  }

  function DropTrailingSlashes(p: string): string {
    if p != "" && p[|p| - 1] == '/' then DropTrailingSlashes(p[..|p| - 1]) else p
  }

  function AfterLastSlash(p: string): string {
    if p == "" || p[|p| - 1] == '/' then "" else AfterLastSlash(p[..|p| - 1]) + [p[|p| - 1]]
  }

  function ForwardSlashes(p: string): string {
    if p == "" then "" else [if p[0] == '\\' then '/' else p[0]] + ForwardSlashes(p[1..])
  }

  predicate IsOpenCodexCatalogPath(value: string) {
    value != "" && Base(ForwardSlashes(value)) == "opencodex-catalog.json"
  }

  predicate IsLegacyProvider(provider: string) {
    provider == "pw_opencodex" || provider == "opencodex" || provider == "pw_opencodex_remote"
  }

  /** Line `i` sets the base URL right below OpenCodex's section marker. */
  predicate Injected(lines: seq<string>, i: nat)
    requires i < |lines|
  {
    i > 0 && Trim(lines[i - 1]) == SECTION_MARKER
  }

  predicate SetsBase(line: string) { Assigned(line, BASE_URL).Some? }
  predicate SetsCatalog(line: string) { Assigned(line, CATALOG).Some? }
  predicate SetsProvider(line: string) {
    var a := Assigned(line, PROVIDER);
    a.Some? && !IsOpenAI(Unquote(a.value))
  }

  predicate IsOpenAI(provider: string) { provider == "openai" }

  predicate NamesOpenCodex(line: string)
    requires SetsCatalog(line)
  {
    IsOpenCodexCatalogPath(Unquote(Assigned(line, CATALOG).value))
  }

  predicate NamesLegacy(line: string)
    requires SetsProvider(line)
  {
    IsLegacyProvider(Unquote(Assigned(line, PROVIDER).value))
  }

  ghost function BaseClaims(lines: seq<string>): Claims {
    Claims(exists i :: 0 <= i < |lines| && SetsBase(lines[i]) && Injected(lines, i),
           exists i :: 0 <= i < |lines| && SetsBase(lines[i]) && !Injected(lines, i))
  }

  ghost function CatalogClaims(lines: seq<string>): Claims {
    Claims(exists i :: 0 <= i < |lines| && SetsCatalog(lines[i]) && NamesOpenCodex(lines[i]),
           exists i :: 0 <= i < |lines| && SetsCatalog(lines[i]) && !NamesOpenCodex(lines[i]))
  }

  ghost function ProviderClaims(lines: seq<string>): Claims {
    Claims(exists i :: 0 <= i < |lines| && SetsProvider(lines[i]) && NamesLegacy(lines[i]),
           exists i :: 0 <= i < |lines| && SetsProvider(lines[i]) && !NamesLegacy(lines[i]))
  }

  /** One root line read on its own gives what it assigns. */
  lemma {:induction false} RootLineAlone(line: string, key: string)
    requires '\n' !in line && !IsHeader(line)
    ensures RootAssignment(line, key) == Assigned(line, key)
  {
    hide Assigned, IsHeader;
    SplitOneLine(line);
    assert [line][1..] == [];
    assert [line][..1] == [line];
  }

  /** What the lookups of the classifiers find in one root line. */
  lemma {:induction false} RootLineReads(content: string, i: nat)
    requires i < |RootLines(content)|
    ensures var line := RootLines(content)[i];
            && (RootKeyExists(line, BASE_URL) <==> SetsBase(line))
            && (RootString(line, CATALOG).Some? <==> SetsCatalog(line))
            && (SetsCatalog(line) ==>
                  (IsOpenCodexCatalogPath(RootString(line, CATALOG).value) <==> NamesOpenCodex(line)))
            && (RootString(line, PROVIDER).Some? && !IsOpenAI(RootString(line, PROVIDER).value) <==> SetsProvider(line))
            && (SetsProvider(line) ==> (IsLegacyProvider(RootString(line, PROVIDER).value) <==> NamesLegacy(line)))
  {
    hide Split, FirstHeader, Assigned, Unquote, IsOpenCodexCatalogPath, IsLegacyProvider, IsOpenAI, IsHeader,
      RootAssignment;
    var line := RootLines(content)[i];
    assert line == Split(content)[i];
    RootLineAlone(line, BASE_URL);
    RootLineAlone(line, CATALOG);
    RootLineAlone(line, PROVIDER);
  }

  /** `classifyOpenCodexBaseURLs`. */
  method ClassifyBaseURLs(content: string) returns (claims: Claims)
    ensures claims == BaseClaims(RootLines(content))
  {
    hide RootLines, SetsBase, RootKeyExists, Trim;
    var lines := RootLines(content);
    var owned, unmanaged := false, false;
    for index := 0 to |lines|
      invariant owned <==> exists i :: 0 <= i < index && SetsBase(lines[i]) && Injected(lines, i)
      invariant unmanaged <==> exists i :: 0 <= i < index && SetsBase(lines[i]) && !Injected(lines, i)
    {
      RootLineReads(content, index);
      if !RootKeyExists(lines[index], BASE_URL) {
        continue;
      }
      if index > 0 && Trim(lines[index - 1]) == SECTION_MARKER {
        owned := true;
      } else {
        unmanaged := true;
      }
    }
    claims := Claims(owned, unmanaged);
  }

  /** `classifyOpenCodexCatalogs`. */
  method ClassifyCatalogs(content: string) returns (claims: Claims)
    ensures claims == CatalogClaims(RootLines(content))
  {
    hide RootLines, SetsCatalog, NamesOpenCodex, RootString, IsOpenCodexCatalogPath;
    var lines := RootLines(content);
    var owned, unmanaged := false, false;
    for index := 0 to |lines|
      invariant owned <==> exists i :: 0 <= i < index && SetsCatalog(lines[i]) && NamesOpenCodex(lines[i])
      invariant unmanaged <==> exists i :: 0 <= i < index && SetsCatalog(lines[i]) && !NamesOpenCodex(lines[i])
    {
      RootLineReads(content, index);
      var value := RootString(lines[index], CATALOG);
      if value.None? {
        continue;
      }
      if IsOpenCodexCatalogPath(value.value) {
        owned := true;
      } else {
        unmanaged := true;
      }
    }
    claims := Claims(owned, unmanaged);
  }

  /** `classifyOpenCodexProviders`. */
  method ClassifyProviders(content: string) returns (claims: Claims)
    ensures claims == ProviderClaims(RootLines(content))
  {
    hide RootLines, SetsProvider, NamesLegacy, RootString, IsLegacyProvider, IsOpenAI;
    var lines := RootLines(content);
    var owned, unmanaged := false, false;
    for index := 0 to |lines|
      invariant owned <==> exists i :: 0 <= i < index && SetsProvider(lines[i]) && NamesLegacy(lines[i])
      invariant unmanaged <==> exists i :: 0 <= i < index && SetsProvider(lines[i]) && !NamesLegacy(lines[i])
    {
      RootLineReads(content, index);
      var value := RootString(lines[index], PROVIDER);
      if value.None? || IsOpenAI(value.value) {
        continue;
      }
      if IsLegacyProvider(value.value) {
        owned := true;
      } else {
        unmanaged := true;
      }
    }
    claims := Claims(owned, unmanaged);
  }

  // ----- The inspection ----------------------------------------------------

  /** The verdict of the final switch. */
  function Verdict(routing: RoutingInspection, openCodexOwned: bool, unmanaged: bool): (Kind, Reason) {
    var relayOwned := routing.managedRoot || routing.interactiveProfileManaged;
    if routing.foreignManagedRoot || routing.foreignInteractiveProfile then (Unavailable, ForeignRelayOwner)
    else if relayOwned && (openCodexOwned || unmanaged) then (Unavailable, MixedRoutingOwners)
    else if relayOwned then (LocalRelay, LocalRelayOwned)
    else if openCodexOwned && unmanaged then (Unavailable, MixedRoutingOwners)
    else if openCodexOwned then (OpenCodex, OpenCodexOwned)
    else if unmanaged then (Unavailable, UnmanagedRoutingOverride)
    else (StateOnly, NativeRoutingClean)
  }

  ghost function VerdictFor(routing: RoutingInspection, bare: string): (Kind, Reason) {
    var lines := RootLines(bare);
    var b, c, p := BaseClaims(lines), CatalogClaims(lines), ProviderClaims(lines);
    Verdict(routing, b.owned || c.owned || p.owned, b.unmanaged || c.unmanaged || p.unmanaged)
  }

  /** `InspectNativeRepairForOwner`, as a function of the files. */
  ghost function Inspect(home: Home, ns: Namespace): Result<(Kind, Reason), RouteError> {
    var content := ReadOptional(home.config);
    if content.Err? || home.profile.Irregular? then Err(Unreadable)
    else if Contains(content.value, ns.own.begin) != Contains(content.value, ns.own.end) then
      Ok((Unavailable, RelayMarkerIncomplete))
    else if HasMarker(content.value, ns.other) then Ok((Unavailable, ForeignRelayOwner))
    else if home.foreignProfile.Irregular? then Err(Unreadable)
    else if home.foreignProfile.Regular? then Ok((Unavailable, ForeignRelayOwner))
    else
      var bare := RemoveManaged(content.value, ns.own);
      if bare.Err? then Ok((Unavailable, RelayMarkerIncomplete))
      else
        var routing := InspectRouting(home, ns);
        if routing.Err? then Ok((Unavailable, ManagedArtifactInvalid))
        else Ok(VerdictFor(routing.value, bare.value))
  }

  /** `InspectNativeRepairForOwner` as the source runs it. */
  method InspectNativeRepair(home: Home, ns: Namespace) returns (r: Result<Inspection, RouteError>)
    ensures r.Err? <==> Inspect(home, ns).Err?
    ensures r.Ok? ==> (r.value.kind, r.value.reason) == Inspect(home, ns).value
    ensures r.Ok? ==> r.value.openAIBaseURL == RootKeyExists(ReadOptional(home.config).value, BASE_URL)
    ensures r.Ok? ==> r.value.modelCatalog == RootKeyExists(ReadOptional(home.config).value, CATALOG)
  {
    hide RemoveManaged, RootAssignment, BaseClaims, CatalogClaims, ProviderClaims, Contains, RootLines, InspectRouting;
    var read := ReadOptional(home.config);
    if read.Err? {
      return Err(Unreadable);
    }
    var content := read.value;
    var result := Inspection(Unavailable, RootKeyExists(content, BASE_URL), RootKeyExists(content, CATALOG),
      RelayMarkerIncomplete);
    if home.profile.Irregular? {
      return Err(Unreadable);
    }
    var currentStart := Contains(content, ns.own.begin);
    var currentEnd := Contains(content, ns.own.end);
    if currentStart != currentEnd {
      return Ok(result.(reason := RelayMarkerIncomplete));
    }
    if HasMarker(content, ns.other) {
      return Ok(result.(reason := ForeignRelayOwner));
    }
    if home.foreignProfile.Irregular? {
      return Err(Unreadable);
    }
    if home.foreignProfile.Regular? {
      return Ok(result.(reason := ForeignRelayOwner));
    }
    var removed := RemoveManaged(content, ns.own);
    if removed.Err? {
      return Ok(result.(reason := RelayMarkerIncomplete));
    }
    var withoutCurrent := removed.value;
    var routing := InspectRouting(home, ns);
    if routing.Err? {
      return Ok(result.(reason := ManagedArtifactInvalid));
    }
    var b := ClassifyBaseURLs(withoutCurrent);
    var c := ClassifyCatalogs(withoutCurrent);
    var p := ClassifyProviders(withoutCurrent);
    var verdict := Verdict(routing.value, b.owned || c.owned || p.owned, b.unmanaged || c.unmanaged || p.unmanaged);
    r := Ok(result.(kind := verdict.0, reason := verdict.1));
  }

  // ----- Agreement of the two classifiers ----------------------------------

  /** No root line sets the base URL, the catalog or a provider other than openai. */
  ghost predicate CleanRoot(bare: string) {
    forall i :: 0 <= i < |RootLines(bare)| ==>
      var line := RootLines(bare)[i]; !SetsBase(line) && !SetsCatalog(line) && !SetsProvider(line)
  }

  /** Every root line that names a provider names openai. */
  ghost predicate OnlyOpenAI(bare: string) {
    forall i :: 0 <= i < |RootLines(bare)| ==> !SetsProvider(RootLines(bare)[i])
  }

  /** The line classifiers find nothing exactly when the root is clean. */
  lemma {:induction false} NoClaims(bare: string)
    ensures var lines := RootLines(bare);
            var b, c, p := BaseClaims(lines), CatalogClaims(lines), ProviderClaims(lines);
            !(b.owned || c.owned || p.owned || b.unmanaged || c.unmanaged || p.unmanaged) <==> CleanRoot(bare)
  {
    hide Split, FirstHeader, Assigned, Unquote, IsOpenCodexCatalogPath, IsLegacyProvider, RootLines, Trim;
  }

  /** A clean root is what the key-based inspection calls clean, plus no second provider line. */
  lemma {:induction false} CleanRootByKeys(bare: string)
    ensures CleanRoot(bare) <==>
              && !RootKeyExists(bare, BASE_URL) && !RootKeyExists(bare, CATALOG) && OnlyOpenAI(bare)
    ensures OnlyOpenAI(bare) ==>
              (RootString(bare, PROVIDER).Some? ==> RootString(bare, PROVIDER).value == "openai")
  {
    hide Split, FirstHeader, Assigned, Unquote, RootLines;
    FirstAssignedFound(RootLines(bare), PROVIDER);
  }

  lemma {:induction false} FirstAssignedFound(lines: seq<string>, key: string)
    ensures var r := FirstAssigned(lines, key);
            r.Some? ==> exists i :: 0 <= i < |lines| && Assigned(lines[i], key) == r
  {
    hide Assigned;
    if lines != [] && Assigned(lines[0], key).None? {
      FirstAssignedFound(lines[1..], key);
      var r := FirstAssigned(lines[1..], key);
      if r.Some? {
        var i :| 0 <= i < |lines[1..]| && Assigned(lines[1..][i], key) == r;
        assert lines[i + 1] == lines[1..][i];
      }
    }
  }

  ghost predicate Classified(home: Home, ns: Namespace, kind: Kind) {
    Inspect(home, ns).Ok? && Inspect(home, ns).value.0 == kind
  }

  /**
   The exact relation of the two classifiers: a home is `state_only` if and only if native
   validation accepts it and no root line names a provider other than openai.
   */
  lemma {:induction false} StateOnlyIsNative(home: Home, ns: Namespace)
    ensures Classified(home, ns, StateOnly) <==>
              ValidateNative(home, ns) && OnlyOpenAI(ReadOptional(home.config).value)
  {
    hide IndexOf, RootAssignment, Unquote, BaseClaims, CatalogClaims, ProviderClaims, RootLines, ValidProfile,
      CleanRoot, OnlyOpenAI, Normalise;
    var content := ReadOptional(home.config);
    if content.Ok? {
      NoClaims(content.value);
      CleanRootByKeys(content.value);
    }
  }

  /**
   The other agreement: a home that validates as managed is `local_relay` if and only if the
   other owner's markers are not inside the block either, and no root line around the block names
   a provider other than openai.
   */
  lemma {:induction false} ManagedIsLocalRelay(home: Home, ns: Namespace, g: string, i: string, c: string)
    requires ValidateManaged(home, ns, g, i, c)
    ensures ReadOptional(home.config).Ok? && RemoveManaged(ReadOptional(home.config).value, ns.own).Ok?
    ensures var content := ReadOptional(home.config).value;
            Classified(home, ns, LocalRelay) <==>
              !HasMarker(content, ns.other) && OnlyOpenAI(RemoveManaged(content, ns.own).value)
  {
    hide IndexOf, RootAssignment, Unquote, BaseClaims, CatalogClaims, ProviderClaims, RootLines, ValidProfile,
      CleanRoot, OnlyOpenAI, Normalise, ManagedSpan, Block, RenderProfile;
    var bare := RemoveManaged(ReadOptional(home.config).value, ns.own).value;
    NoClaims(bare);
    CleanRootByKeys(bare);
  }

  // ----- Disabling works on the raw text ------------------------------------

  /** The raw text is cut cleanly: removing the block neither leaves nor makes a stray CRLF. */
  predicate CleanSeams(raw: string, owner: Owner) {
    var start, end := IndexOf(raw, owner.begin), IndexOf(raw, owner.end);
    start < 0 || end < start ||
    var front, behind := raw[..start], raw[end + |owner.end|..];
    && !("\r\r\n" <= behind)
    && !(front != "" && front[|front| - 1] == '\r' && StartsWith(DropLineEnd(behind), '\n'))
  }

  /** A text around one span that neither begins nor ends in half a line ending. */
  lemma {:induction false} NormaliseAround(front: string, span: string, behind: string)
    requires span != "" && span[0] != '\n' && span[|span| - 1] != '\r'
    ensures Normalise(front + span + behind) == Normalise(front) + Normalise(span) + Normalise(behind)
  {
    hide Normalise;
    NormaliseAppend(front + span, behind);
    NormaliseAppend(front, span);
  }

  /** Dropping the line ending commutes with the replacement unless a CR CR LF follows. */
  lemma {:induction false} DropCommutes(s: string)
    ensures var d := DropLineEnd(Normalise(s));
            && (!("\r\r\n" <= s) ==> d == Normalise(DropLineEnd(s)))
            && ("\r\r\n" <= s ==> |d| < |Normalise(DropLineEnd(s))|)
  {
    hide Normalise, DropLineEnd;
    if StartsWith(s, '\n') {
      DropCommutesLf(s[1..]);
      assert s == "\n" + s[1..];
    } else if StartsWith(s, '\r') && StartsWith(s[1..], '\n') {
      DropCommutesCrLf(s[2..]);
      assert s == "\r\n" + s[2..];
    } else if StartsWith(s, '\r') {
      DropCommutesCr(s[1..]);
      assert s == "\r" + s[1..];
    } else {
      DropCommutesOther(s);
    }
  }

  lemma {:induction false} DropCommutesLf(rest: string)
    ensures var s := "\n" + rest;
            !("\r\r\n" <= s) && DropLineEnd(s) == rest && DropLineEnd(Normalise(s)) == Normalise(rest)
  {
    hide Normalise;
    var s := "\n" + rest;
    assert s[1..] == rest && s[0] == '\n';
    NormaliseStep(s);
    DropsLf(rest);
    DropsLf(Normalise(rest));
  }

  lemma {:induction false} DropsLf(rest: string)
    ensures DropLineEnd("\n" + rest) == rest
  {
    var s := "\n" + rest;
    assert s[0] == '\n' && s[1..] == rest && "\r\n"[0] == '\r';
  }

  lemma {:induction false} DropCommutesCrLf(rest: string)
    ensures var s := "\r\n" + rest;
            !("\r\r\n" <= s) && DropLineEnd(s) == rest && DropLineEnd(Normalise(s)) == Normalise(rest)
  {
    hide Normalise;
    var s := "\r\n" + rest;
    assert s[1..] == "\n" + rest && s[2..] == rest && s[1] == '\n' && "\r\r\n"[1] == '\r';
    NormaliseStep(s);
    DropCommutesLf(rest);
  }

  /** A CR that no LF follows is no line ending; the replacement may put an LF behind it. */
  lemma {:induction false} DropCommutesCr(rest: string)
    requires !StartsWith(rest, '\n')
    ensures var s := "\r" + rest; var n := Normalise(rest);
            && DropLineEnd(s) == s && Normalise(s) == "\r" + n
            && ("\r\r\n" <= s <==> "\r\n" <= rest)
            && ("\r\n" <= rest ==> n != "" && DropLineEnd(Normalise(s)) == n[1..])
            && (!("\r\n" <= rest) ==> DropLineEnd(Normalise(s)) == Normalise(s))
  {
    hide Normalise;
    var s, n := "\r" + rest, Normalise(rest);
    assert s[0] == '\r' && s[1..] == rest && "\r\n"[0] == '\r' && "\r\n"[1] == '\n' && "\n"[0] == '\n';
    assert "\r\r\n" == "\r" + "\r\n";
    NormaliseStep(s);
    NormalisedFirst(rest);
    assert ("\r" + n)[1..] == n;
    assert n != "" ==> ("\r" + n)[2..] == n[1..];
  }

  lemma {:induction false} DropCommutesOther(s: string)
    requires !StartsWith(s, '\n') && !StartsWith(s, '\r')
    ensures !("\r\r\n" <= s) && DropLineEnd(s) == s && DropLineEnd(Normalise(s)) == Normalise(s)
  {
    hide Normalise;
    assert "\r\n"[0] == '\r' && "\n"[0] == '\n' && "\r\r\n"[0] == '\r';
    if s == "" {
      NormaliseIdentity(s);
    } else {
      NormaliseStep(s);
    }
  }

  /**
   The exact commutation law: the raw text has a removable block exactly when the normalised
   text has, and then removing it before or after the CRLF replacement gives the same text if
   and only if the seams are clean.
   */
  lemma {:induction false} RemovalCommutes(raw: string, owner: Owner)
    requires WellMarked(owner)
    ensures var r, n := RemoveManaged(raw, owner), RemoveManaged(Normalise(raw), owner);
            && (r.Ok? <==> n.Ok?)
            && (r.Ok? ==> (Normalise(r.value) == n.value <==> CleanSeams(raw, owner)))
  {
    hide IndexOf, Normalise, DropLineEnd;
    var b, e := owner.begin, owner.end;
    var start, end := IndexOf(raw, b), IndexOf(raw, e);
    IndexOfNormalise(raw, b);
    IndexOfNormalise(raw, e);
    if 0 <= start && 0 <= end {
      MarkerOrder(raw, owner);
      if start <= end {
        SeamLaw(raw, owner, start, end);
      }
    }
  }

  /** Where the markers are when one directly follows the other. */
  lemma {:induction false} BareBlockMarkers(owner: Owner, tail: string)
    requires WellMarked(owner)
    ensures var text := owner.begin + owner.end + tail;
            IndexOf(text, owner.begin) == 0 && IndexOf(text, owner.end) == |owner.begin|
  {
    hide IndexOf, Plain;
    var b, e := owner.begin, owner.end;
    var text := b + e + tail;
    assert text[0..|b|] == b && text[|b|..|b| + |e|] == e;
    assert OccursAt(text, b, 0) && OccursAt(text, e, |b|);
    assert forall k :: 0 < k < |b| ==> text[k] == b[1..][k - 1];
    var end := IndexOf(text, e);
    assert text[end..end + |e|][0] == text[end] && text[end..end + |e|][2] == text[end + 2];
    assert text[2] == b[2];
  }

  lemma {:induction false} RemoveBareBlock(owner: Owner, tail: string)
    requires WellMarked(owner)
    ensures RemoveManaged(owner.begin + owner.end + tail, owner) == Ok(DropLineEnd(tail))
  {
    hide IndexOf, DropLineEnd, WellMarked;
    BareBlockMarkers(owner, tail);
    var text := owner.begin + owner.end + tail;
    assert text[|owner.begin| + |owner.end|..] == tail;
    assert text[..0] + DropLineEnd(tail) == DropLineEnd(tail);
  }

  /** A seam that is not clean: the CR in front of the CRLF survives one order and not the other. */
  lemma {:induction false} DirtySeamExample()
    ensures var owner := ProductionOwner();
            var raw := owner.begin + owner.end + "\r\r\n";
            && RemoveManaged(raw, owner) == Ok("\r\r\n")
            && RemoveManaged(Normalise(raw), owner) == Ok("")
            && Normalise("\r\r\n") != ""
  {
    hide WellMarked, RemoveManaged, ProductionOwner, Normalise;
    ProductionWellMarked();
    var owner := ProductionOwner();
    NormaliseTwiceExample();
    RemoveBareBlock(owner, "\r\r\n");
    RemoveBareBlock(owner, "\r\n");
    MarkersNormal(owner);
    NormaliseAppend(owner.begin + owner.end, "\r\r\n");
    LineEndsDropped();
  }

  lemma {:induction false} LineEndsDropped()
    ensures DropLineEnd("\r\r\n") == "\r\r\n" && DropLineEnd("\r\n") == ""
  {
    assert "\r\r\n"[0] == '\r' && "\r\r\n"[1] == '\r' && "\r\n"[1] == '\n' && "\n"[0] == '\n';
    assert "\r\n"[2..] == "";
  }

  lemma {:induction false} MarkersNormal(owner: Owner)
    requires WellMarked(owner)
    ensures Normalise(owner.begin + owner.end) == owner.begin + owner.end
  {
    hide Normalise;
    assert forall i :: 0 <= i < |owner.end| ==> PlainChar(owner.end[i]);
    NormaliseIdentity(owner.begin + owner.end);
  }

  /** The markers keep their order under the replacement. */
  lemma {:induction false} MarkerOrder(raw: string, owner: Owner)
    requires WellMarked(owner)
    requires IndexOf(raw, owner.begin) >= 0 && IndexOf(raw, owner.end) >= 0
    ensures var start, end := IndexOf(raw, owner.begin), IndexOf(raw, owner.end);
            start <= end <==> |Normalise(raw[..start])| <= |Normalise(raw[..end])|
  {
    hide IndexOf, Normalise;
    var start, end := IndexOf(raw, owner.begin), IndexOf(raw, owner.end);
    if start <= end {
      PrefixShorter(raw, start, end);
    } else {
      PrefixShorter(raw, end + 1, start);
      var front := raw[..end];
      assert raw[..end + 1] == front + [raw[end]];
      assert raw[end..end + |owner.end|][0] == raw[end];
      NormaliseAppend(front, "#");
      NormaliseIdentity("#");
    }
  }

  lemma {:induction false} PrefixShorter(s: string, i: nat, j: nat)
    requires i <= j <= |s| && (i < |s| ==> s[i] != '\n' || i == j)
    ensures |Normalise(s[..i])| <= |Normalise(s[..j])|
  {
    hide Normalise;
    if i < j {
      assert s[..j] == s[..i] + s[i..j];
      NormaliseAppend(s[..i], s[i..j]);
    }
  }

  /** A cut inside a CRLF costs the normalised text one character. */
  lemma {:induction false} SeamLosesOne(front: string, d: string)
    requires front != "" && front[|front| - 1] == '\r' && StartsWith(d, '\n')
    ensures |Normalise(front + d)| == |Normalise(front)| + |Normalise(d)| - 1
  {
    var f := front[..|front| - 1];
    assert front == f + "\r";
    assert front + d == f + ("\r" + d);
    NormaliseAppend(f, "\r" + d);
    NormaliseAppend(f, "\r");
    assert ("\r" + d)[1..] == d;
    assert Normalise("\r") == "\r" + Normalise("");
  }

  lemma {:induction false} SeamLaw(raw: string, owner: Owner, start: nat, end: nat)
    requires WellMarked(owner) && start == IndexOf(raw, owner.begin) && end == IndexOf(raw, owner.end) && start <= end
    requires IndexOf(Normalise(raw), owner.begin) == |Normalise(raw[..start])|
    requires IndexOf(Normalise(raw), owner.end) == |Normalise(raw[..end])|
    requires |Normalise(raw[..start])| <= |Normalise(raw[..end])|
    ensures var r, n := RemoveManaged(raw, owner), RemoveManaged(Normalise(raw), owner);
            r.Ok? && n.Ok? && (Normalise(r.value) == n.value <==> CleanSeams(raw, owner))
  {
    hide IndexOf, Normalise, DropLineEnd;
    var e := owner.end;
    var front, span, behind := raw[..start], raw[start..end + |e|], raw[end + |e|..];
    NormalisedParts(raw, owner, start, end);
    var nf := Normalise(front);
    var d := DropLineEnd(behind);
    assert Normalise(raw)[..|nf|] == nf;
    assert Normalise(raw)[|nf| + |Normalise(span)|..] == Normalise(behind);
    DropCommutes(behind);
    SeamCases(front, behind);
  }

  lemma {:induction false} NormalisedParts(raw: string, owner: Owner, start: nat, end: nat)
    requires WellMarked(owner) && OccursAt(raw, owner.begin, start) && OccursAt(raw, owner.end, end) && start <= end
    ensures var e := owner.end; var front, span, behind := raw[..start], raw[start..end + |e|], raw[end + |e|..];
            && Normalise(raw) == Normalise(front) + Normalise(span) + Normalise(behind)
            && |Normalise(front)| + |Normalise(span)| == |Normalise(raw[..end])| + |e|
  {
    hide Normalise;
    var e := owner.end;
    var front, span, behind := raw[..start], raw[start..end + |e|], raw[end + |e|..];
    assert raw == front + span + behind;
    assert raw[start..start + |owner.begin|][0] == raw[start] == span[0];
    assert raw[end..end + |e|][|e| - 1] == raw[end + |e| - 1] == span[|span| - 1];
    assert e[|e| - 1] != '\r' && owner.begin[0] != '\n';
    NormaliseAround(front, span, behind);
    var upTo := raw[..end];
    assert front + span == upTo + e;
    NormaliseAppend(front, span);
    NormaliseAppend(upTo, e);
    NormaliseIdentity(e);
  }

  lemma {:induction false} SeamCases(front: string, behind: string)
    ensures var d := DropLineEnd(behind);
            Normalise(front + d) == Normalise(front) + DropLineEnd(Normalise(behind)) <==>
              && !("\r\r\n" <= behind)
              && !(front != "" && front[|front| - 1] == '\r' && StartsWith(d, '\n'))
  {
    hide Normalise;
    var d := DropLineEnd(behind);
    DropCommutes(behind);
    assert "\r\r\n" <= behind ==> behind[0] == '\r' && behind[1] == '\r' && d == behind;
    if front != "" && front[|front| - 1] == '\r' && StartsWith(d, '\n') {
      SeamLosesOne(front, d);
    } else {
      NormaliseAppend(front, d);
    }
  }
}
