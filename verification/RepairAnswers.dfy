/**
 Exactly when the native-repair inspection gives each of its answers, in terms of the files, the
 markers and the root lines of the configuration.
 */
module RepairAnswers {

  import opened CodexAnswers
  import opened CodexConfig
  import opened CodexHome
  import opened NativeRepair
  import opened Text
  import opened Wrappers

  // ----- Root lines ------------------------------------------------------------

  /** The line sets the base URL, the catalog or a provider other than openai. */
  predicate Routes(line: string) {
    SetsBase(line) || SetsCatalog(line) || SetsProvider(line)
  }

  /** The path ends in the name of OpenCodex's catalog, with either kind of slash. */
  ghost predicate IsCatalogFile(path: string) {
    exists dir, slashes :: EndsIn(path, CATALOG_NAME, dir, slashes)
  }

  /** Line `i` is OpenCodex's: a base URL below its section marker, its catalog, or one of its provider names. */
  ghost predicate OpenCodexLine(lines: seq<string>, i: nat)
    requires i < |lines|
  {
    || (SetsBase(lines[i]) && i > 0 && Trim(lines[i - 1]) == "# Auto-injected by opencodex")
    || (SetsCatalog(lines[i]) && IsCatalogFile(Unquote(Assigned(lines[i], CATALOG).value)))
    || (SetsProvider(lines[i]) &&
        Unquote(Assigned(lines[i], PROVIDER).value) in {"opencodex", "pw_opencodex", "pw_opencodex_remote"})
  }

  /** As the classifiers ask it. */
  lemma {:induction false} LineIs(lines: seq<string>, i: nat)
    requires i < |lines|
    ensures OpenCodexLine(lines, i) <==>
              || (SetsBase(lines[i]) && Injected(lines, i))
              || (SetsCatalog(lines[i]) && NamesOpenCodex(lines[i]))
              || (SetsProvider(lines[i]) && NamesLegacy(lines[i]))
  {
    hide Assigned, Unquote, Trim, IsOpenCodexCatalogPath, EndsIn;
    if SetsCatalog(lines[i]) {
      CatalogPathExactly(Unquote(Assigned(lines[i], CATALOG).value));
    }
  }

  ghost predicate SomeRoutes(lines: seq<string>) {
    exists i :: 0 <= i < |lines| && Routes(lines[i])
  }

  ghost predicate SomeOpenCodex(lines: seq<string>) {
    exists i :: 0 <= i < |lines| && OpenCodexLine(lines, i)
  }

  ghost predicate OnlyOpenCodex(lines: seq<string>) {
    forall i :: 0 <= i < |lines| && Routes(lines[i]) ==> OpenCodexLine(lines, i)
  }

  /** A line assigns at most one of the three keys. */
  lemma {:induction false} OneKeyPerLine(line: string)
    ensures !(SetsBase(line) && SetsCatalog(line)) && !(SetsBase(line) && SetsProvider(line))
    ensures !(SetsCatalog(line) && SetsProvider(line))
  {
    hide Trim, Unquote;
    var t := Trim(line);
    StartOf(t, BASE_URL, 0);
    StartOf(t, CATALOG, 6);
    StartOf(t, PROVIDER, 6);
    StartOf(t, CATALOG, 0);
    StartOf(t, PROVIDER, 0);
    assert BASE_URL[0] == 'o' && CATALOG[0] == 'm' && PROVIDER[0] == 'm' && CATALOG[6] == 'c' && PROVIDER[6] == 'p';
  }

  lemma {:induction false} StartOf(t: string, key: string, i: nat)
    requires i < |key|
    ensures key <= t ==> t[i] == key[i]
  {}

  /** The claims of the three classifiers, line by line. */
  lemma {:induction false} ClaimsByLine(lines: seq<string>)
    ensures var b, c, p := BaseClaims(lines), CatalogClaims(lines), ProviderClaims(lines);
            && (b.owned || c.owned || p.owned <==> SomeOpenCodex(lines))
            && (b.unmanaged || c.unmanaged || p.unmanaged <==> !OnlyOpenCodex(lines))
  {
    hide SetsBase, SetsCatalog, SetsProvider, NamesOpenCodex, NamesLegacy, Injected, OpenCodexLine;
    forall i | 0 <= i < |lines|
      ensures Routes(lines[i]) && !OpenCodexLine(lines, i) <==>
                || (SetsBase(lines[i]) && !Injected(lines, i))
                || (SetsCatalog(lines[i]) && !NamesOpenCodex(lines[i]))
                || (SetsProvider(lines[i]) && !NamesLegacy(lines[i]))
    {
      OneKeyPerLine(lines[i]);
      LineIs(lines, i);
    }
    OwnedByLine(lines);
    UnmanagedByLine(lines);
  }

  lemma {:induction false} OwnedByLine(lines: seq<string>)
    ensures var b, c, p := BaseClaims(lines), CatalogClaims(lines), ProviderClaims(lines);
            b.owned || c.owned || p.owned <==> SomeOpenCodex(lines)
  {
    hide SetsBase, SetsCatalog, SetsProvider, NamesOpenCodex, NamesLegacy, Injected, OpenCodexLine;
    forall i | 0 <= i < |lines|
      ensures OpenCodexLine(lines, i) <==>
                || (SetsBase(lines[i]) && Injected(lines, i))
                || (SetsCatalog(lines[i]) && NamesOpenCodex(lines[i]))
                || (SetsProvider(lines[i]) && NamesLegacy(lines[i]))
    {
      LineIs(lines, i);
    }
    if i :| 0 <= i < |lines| && SetsBase(lines[i]) && Injected(lines, i) {
      assert OpenCodexLine(lines, i);
    }
    if i :| 0 <= i < |lines| && SetsCatalog(lines[i]) && NamesOpenCodex(lines[i]) {
      assert OpenCodexLine(lines, i);
    }
    if i :| 0 <= i < |lines| && SetsProvider(lines[i]) && NamesLegacy(lines[i]) {
      assert OpenCodexLine(lines, i);
    }
  }

  lemma {:induction false} UnmanagedByLine(lines: seq<string>)
    requires forall i :: 0 <= i < |lines| ==>
               (Routes(lines[i]) && !OpenCodexLine(lines, i) <==>
                  || (SetsBase(lines[i]) && !Injected(lines, i))
                  || (SetsCatalog(lines[i]) && !NamesOpenCodex(lines[i]))
                  || (SetsProvider(lines[i]) && !NamesLegacy(lines[i])))
    ensures var b, c, p := BaseClaims(lines), CatalogClaims(lines), ProviderClaims(lines);
            b.unmanaged || c.unmanaged || p.unmanaged <==> !OnlyOpenCodex(lines)
  {
    hide SetsBase, SetsCatalog, SetsProvider, NamesOpenCodex, NamesLegacy, Injected, Routes, OpenCodexLine;
  }

  lemma {:induction false} OwnAndOnly(lines: seq<string>)
    ensures SomeOpenCodex(lines) ==> SomeRoutes(lines)
    ensures !OnlyOpenCodex(lines) ==> SomeRoutes(lines)
    ensures SomeRoutes(lines) ==> SomeOpenCodex(lines) || !OnlyOpenCodex(lines)
  {
    hide SetsBase, SetsCatalog, SetsProvider, NamesOpenCodex, NamesLegacy, Injected;
  }

  // ----- The catalog path --------------------------------------------------------

  predicate IsSlash(c: char) { c == '/' || c == '\\' }

  /** The path is a directory or nothing, then the name, then any slashes. */
  predicate EndsIn(path: string, name: string, dir: string, slashes: string) {
    && path == dir + name + slashes
    && (dir != "" ==> IsSlash(dir[|dir| - 1]))
    && forall i :: 0 <= i < |slashes| ==> IsSlash(slashes[i])
  }

  lemma {:induction false} ForwardAt(p: string)
    ensures var f := ForwardSlashes(p);
            |f| == |p| && forall i :: 0 <= i < |p| ==> f[i] == if IsSlash(p[i]) then '/' else p[i]
  {
    if p != "" {
      ForwardAt(p[1..]);
    }
  }

  lemma {:induction false} DroppedSlashes(p: string)
    ensures var d := DropTrailingSlashes(p);
            && d <= p && (d != "" ==> d[|d| - 1] != '/')
            && forall i :: |d| <= i < |p| ==> p[i] == '/'
  {
    if p != "" && p[|p| - 1] == '/' {
      DroppedSlashes(p[..|p| - 1]);
    }
  }

  /** The text behind the last slash. */
  lemma {:induction false} LastPart(p: string)
    ensures var l := AfterLastSlash(p);
            && |l| <= |p| && p[|p| - |l|..] == l && '/' !in l
            && (|l| < |p| ==> p[|p| - |l| - 1] == '/')
    decreases |p|
  {
    if p != "" && p[|p| - 1] != '/' {
      hide AfterLastSlash;
      var front, last := p[..|p| - 1], p[|p| - 1];
      LastPart(front);
      LastPartStep(p);
      var j := |front| - |AfterLastSlash(front)|;
      assert p[j..] == front[j..] + [last];
    }
  }

  lemma {:induction false} LastPartStep(p: string)
    requires p != "" && p[|p| - 1] != '/'
    ensures AfterLastSlash(p) == AfterLastSlash(p[..|p| - 1]) + [p[|p| - 1]]
  {}

  /** A prefix of the path that ends where the slashes begin is what is left of it. */
  lemma {:induction false} DropsTo(p: string, k: nat)
    requires k <= |p| && (forall i :: k <= i < |p| ==> p[i] == '/') && (k > 0 ==> p[k - 1] != '/')
    ensures DropTrailingSlashes(p) == p[..k]
  {
    DroppedSlashes(p);
    var d := DropTrailingSlashes(p);
    assert d == p[..|d|];
    assert forall i :: 0 <= i < |d| ==> p[i] == d[i];
  }

  lemma {:induction false} LastPartIs(p: string, k: nat)
    requires k <= |p| && '/' !in p[k..] && (k > 0 ==> p[k - 1] == '/')
    ensures AfterLastSlash(p) == p[k..]
    decreases |p|
  {
    if k < |p| {
      var front, last := p[..|p| - 1], p[|p| - 1];
      assert p[k..] == front[k..] + [last];
      LastPartIs(front, k);
    }
  }

  const CATALOG_NAME := "opencodex-catalog.json"

  predicate IsFileName(name: string) {
    name != "" && name != "." && forall i :: 0 <= i < |name| ==> !IsSlash(name[i])
  }

  lemma {:induction false} CatalogIsFileName()
    ensures IsFileName(CATALOG_NAME)
  {
    assert CATALOG_NAME[0] == 'o';
  }

  /** A path is OpenCodex's catalog exactly when its last part has that name, with either kind of slash. */
  lemma {:induction false} CatalogPathExactly(value: string)
    ensures IsOpenCodexCatalogPath(value) <==> IsCatalogFile(value)
  {
    CatalogIsFileName();
    BaseExactly(value, CATALOG_NAME);
  }

  /** The base name of a path, with either kind of slash. */
  lemma {:induction false} BaseExactly(value: string, name: string)
    requires IsFileName(name)
    ensures value != "" && Base(ForwardSlashes(value)) == name <==>
              exists dir, slashes :: EndsIn(value, name, dir, slashes)
  {
    hide ForwardSlashes, Base, IsSlash, IsFileName;
    if value != "" && Base(ForwardSlashes(value)) == name {
      var dir, slashes := PartsOfPath(value, name);
    }
    forall dir, slashes | EndsIn(value, name, dir, slashes)
      ensures value != "" && Base(ForwardSlashes(value)) == name
    {
      PathOfParts(value, name, dir, slashes);
    }
  }

  lemma {:induction false} PartsOfPath(value: string, name: string) returns (dir: string, slashes: string)
    requires IsFileName(name) && value != "" && Base(ForwardSlashes(value)) == name
    ensures EndsIn(value, name, dir, slashes)
  {
    hide ForwardSlashes, DropTrailingSlashes, AfterLastSlash, IsSlash, EndsIn;
    var f := ForwardSlashes(value);
    ForwardAt(value);
    DroppedSlashes(f);
    var p := DropTrailingSlashes(f);
    LastPart(p);
    assert AfterLastSlash(p) == name by { NameIsNoSlash(name); }
    var k := |p| - |name|;
    assert p == f[..|p|];
    assert k > 0 ==> f[k - 1] == p[k - 1];
    dir, slashes := value[..k], value[|p|..];
    SameShape(value, f, k, |p|, name);
  }

  lemma {:induction false} NameIsNoSlash(name: string)
    requires IsFileName(name)
    ensures name != "/" && name != "."
  {
    assert name[0] != '/';
  }

  /** The parts of a path are where those of its form with forward slashes are. */
  lemma {:induction false} SameShape(value: string, f: string, k: nat, n: nat, name: string)
    requires k <= n <= |f| == |value| && f[..n][k..] == name && forall i :: 0 <= i < |name| ==> !IsSlash(name[i])
    requires forall i :: 0 <= i < |f| ==> f[i] == if IsSlash(value[i]) then '/' else value[i]
    requires (k > 0 ==> f[k - 1] == '/') && forall i :: n <= i < |f| ==> f[i] == '/'
    ensures EndsIn(value, name, value[..k], value[n..])
  {
    assert |name| == n - k;
    forall i | 0 <= i < |name|
      ensures value[k + i] == name[i]
    {
      assert f[..n][k..][i] == f[k + i];
    }
    assert value[k..n] == name;
    assert value == value[..k] + value[k..n] + value[n..];
  }

  lemma {:induction false} PathOfParts(value: string, name: string, dir: string, slashes: string)
    requires IsFileName(name) && EndsIn(value, name, dir, slashes)
    ensures value != "" && Base(ForwardSlashes(value)) == name
  {
    hide ForwardSlashes, DropTrailingSlashes, AfterLastSlash;
    var f := ForwardSlashes(value);
    ForwardAt(value);
    var k := |dir| + |name|;
    assert forall i :: 0 <= i < |name| ==> value[|dir| + i] == name[i];
    assert forall i :: k <= i < |value| ==> value[i] == slashes[i - k];
    assert f[k - 1] == name[|name| - 1];
    DropsTo(f, k);
    var p := f[..k];
    assert p[|dir|..] == name;
    assert |dir| > 0 ==> value[|dir| - 1] == dir[|dir| - 1];
    LastPartIs(p, |dir|);
  }

  // ----- The answers -----------------------------------------------------------------

  /** Both files of the owner can be read. */
  predicate Readable(home: Home) { !home.config.Irregular? && !home.profile.Irregular? }

  function TextOf(home: Home): string
    requires Readable(home)
  {
    ReadOptional(home.config).value
  }

  /** One of the two markers is there without the other. */
  predicate HalfMarked(content: string, owner: Owner) {
    Contains(content, owner.begin) != Contains(content, owner.end)
  }

  /** Nothing of the other owner is in sight. */
  predicate NoOther(home: Home, ns: Namespace)
    requires Readable(home)
  {
    !HasMarker(TextOf(home), ns.other) && home.foreignProfile.Absent?
  }

  /** The owner has a block or a side profile. */
  predicate RelayOwned(home: Home, ns: Namespace)
    requires Readable(home)
  {
    HasMarker(TextOf(home), ns.own) || home.profile.Regular?
  }

  /** Everything that is checked before the root lines is in order. */
  predicate Sound(home: Home, ns: Namespace) {
    && Readable(home) && !Torn(TextOf(home), ns.own) && NoOther(home, ns) && ProfileFits(home.profile, ns.own)
  }

  /** The root lines around the block. */
  function LinesAround(home: Home, ns: Namespace): seq<string>
    requires Readable(home) && RemoveManaged(TextOf(home), ns.own).Ok?
  {
    RootLines(RemoveManaged(TextOf(home), ns.own).value)
  }

  lemma {:induction false} NotTorn(home: Home, ns: Namespace)
    requires Readable(home)
    ensures RemoveManaged(TextOf(home), ns.own).Ok? <==> !Torn(TextOf(home), ns.own)
    ensures !HasMarker(TextOf(home), ns.own) ==> RemoveManaged(TextOf(home), ns.own) == Ok(TextOf(home))
  {
    hide IndexOf, Normalise;
  }

  /** The inspection fails exactly when a file it looks at cannot be read. */
  lemma {:induction false} InspectFails(home: Home, ns: Namespace)
    ensures Inspect(home, ns).Err? <==>
              || !Readable(home)
              || (!HalfMarked(TextOf(home), ns.own) && !HasMarker(TextOf(home), ns.other) &&
                  home.foreignProfile.Irregular?)
  {
    hide RemoveManaged, InspectRouting, VerdictFor, Normalise, Contains;
  }

  /** The answers given before the root lines are looked at. */
  lemma {:induction false} EarlyAnswers(home: Home, ns: Namespace)
    requires Readable(home) && !Sound(home, ns) && Inspect(home, ns).Ok?
    ensures var reason := Inspect(home, ns).value.1; var half := HalfMarked(TextOf(home), ns.own);
            && (reason == RelayMarkerIncomplete <==> half || (Torn(TextOf(home), ns.own) && NoOther(home, ns)))
            && (reason == ForeignRelayOwner <==> !half && !NoOther(home, ns))
            && (reason == ManagedArtifactInvalid <==>
                  !Torn(TextOf(home), ns.own) && NoOther(home, ns) && !ProfileFits(home.profile, ns.own))
            && Inspect(home, ns).value.0 == Unavailable
            && reason in {RelayMarkerIncomplete, ForeignRelayOwner, ManagedArtifactInvalid}
  {
    hide VerdictFor, Normalise, IndexOf, InspectRouting, ValidProfile, RemoveManaged;
    NotTorn(home, ns);
    InspectionAnswers(home, ns);
  }

  /** The answers given from the root lines. */
  lemma {:induction false} LateAnswers(home: Home, ns: Namespace)
    requires Sound(home, ns)
    ensures Inspect(home, ns).Ok? && RemoveManaged(TextOf(home), ns.own).Ok?
    ensures var (kind, reason) := Inspect(home, ns).value; var lines := LinesAround(home, ns);
            var joined := HasMarker(RemoveManaged(TextOf(home), ns.own).value, ns.other);
            var relay := RelayOwned(home, ns);
            && (reason == ForeignRelayOwner <==> joined)
            && (reason == MixedRoutingOwners <==>
                  !joined && ((relay && SomeRoutes(lines)) || (SomeOpenCodex(lines) && !OnlyOpenCodex(lines))))
            && (reason == LocalRelayOwned <==> !joined && relay && !SomeRoutes(lines))
            && (reason == OpenCodexOwned <==>
                  !joined && !relay && SomeOpenCodex(lines) && OnlyOpenCodex(lines))
            && (reason == UnmanagedRoutingOverride <==>
                  !joined && !relay && SomeRoutes(lines) && !SomeOpenCodex(lines))
            && (reason == NativeRoutingClean <==> !joined && !relay && !SomeRoutes(lines))
            && (kind == StateOnly <==> reason == NativeRoutingClean)
            && (kind == LocalRelay <==> reason == LocalRelayOwned)
            && (kind == OpenCodex <==> reason == OpenCodexOwned)
            && reason !in {RelayMarkerIncomplete, ManagedArtifactInvalid}
  {
    hide Normalise, IndexOf, InspectRouting, ValidProfile, RemoveManaged, BaseClaims, CatalogClaims, ProviderClaims,
      SomeRoutes, SomeOpenCodex, OnlyOpenCodex, RootLines, Torn;
    assert !HalfMarked(TextOf(home), ns.own) by { TornHalf(TextOf(home), ns.own); }
    NotTorn(home, ns);
    InspectionAnswers(home, ns);
    ClaimsByLine(LinesAround(home, ns));
    OwnAndOnly(LinesAround(home, ns));
  }

  lemma {:induction false} TornHalf(content: string, owner: Owner)
    ensures HalfMarked(content, owner) ==> Torn(content, owner)
  {}

  /**
   A home is OpenCodex's if and only if its configuration can be read, neither owner has a marker
   or a side profile, some root line is OpenCodex's, and so is every root line that routes.
   */
  lemma {:induction false} OpenCodexExactly(home: Home, ns: Namespace)
    ensures Classified(home, ns, OpenCodex) <==>
              && !home.config.Irregular? && home.profile.Absent? && home.foreignProfile.Absent?
              && !HasMarker(TextOf(home), ns.own) && !HasMarker(TextOf(home), ns.other)
              && SomeOpenCodex(RootLines(TextOf(home))) && OnlyOpenCodex(RootLines(TextOf(home)))
  {
    hide Normalise, IndexOf, Inspect, ValidProfile, RemoveManaged, SomeRoutes, SomeOpenCodex, OnlyOpenCodex, RootLines;
    InspectFails(home, ns);
    if Readable(home) {
      NotTorn(home, ns);
      Answer(home, ns);
    }
  }

  /** A routing override nobody owns, likewise: some root line routes and none is OpenCodex's. */
  lemma {:induction false} UnmanagedExactly(home: Home, ns: Namespace)
    ensures Inspect(home, ns).Ok? && Inspect(home, ns).value.1 == UnmanagedRoutingOverride <==>
              && !home.config.Irregular? && home.profile.Absent? && home.foreignProfile.Absent?
              && !HasMarker(TextOf(home), ns.own) && !HasMarker(TextOf(home), ns.other)
              && SomeRoutes(RootLines(TextOf(home))) && !SomeOpenCodex(RootLines(TextOf(home)))
  {
    hide Normalise, IndexOf, Inspect, ValidProfile, RemoveManaged, SomeRoutes, SomeOpenCodex, OnlyOpenCodex, RootLines;
    InspectFails(home, ns);
    if Readable(home) {
      NotTorn(home, ns);
      Answer(home, ns);
    }
  }

  /** Whichever of the two applies. */
  lemma {:induction false} Answer(home: Home, ns: Namespace)
    requires Readable(home)
    ensures !Sound(home, ns) && Inspect(home, ns).Ok? ==>
              && Inspect(home, ns).value.0 == Unavailable
              && Inspect(home, ns).value.1 in {RelayMarkerIncomplete, ForeignRelayOwner, ManagedArtifactInvalid}
    ensures Sound(home, ns) ==> Inspect(home, ns).Ok? && RemoveManaged(TextOf(home), ns.own).Ok?
    ensures Sound(home, ns) ==>
              var (kind, reason) := Inspect(home, ns).value; var lines := LinesAround(home, ns);
              var joined := HasMarker(RemoveManaged(TextOf(home), ns.own).value, ns.other);
              var alone := !joined && !RelayOwned(home, ns);
              && (kind == OpenCodex <==> alone && SomeOpenCodex(lines) && OnlyOpenCodex(lines))
              && (reason == UnmanagedRoutingOverride <==> alone && SomeRoutes(lines) && !SomeOpenCodex(lines))
              && (reason == UnmanagedRoutingOverride ==> kind == Unavailable)
  {
    hide Sound, Inspect, RemoveManaged, RelayOwned, HasMarker, SomeRoutes, SomeOpenCodex, OnlyOpenCodex, LinesAround;
    if Sound(home, ns) {
      LateAnswers(home, ns);
    } else if Inspect(home, ns).Ok? {
      EarlyAnswers(home, ns);
    }
  }
}
