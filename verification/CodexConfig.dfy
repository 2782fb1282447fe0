/**
 The text side of the Codex configuration editor (`codexconfig/config.go`): the
 relay owns one block of lines in the root section of a user's TOML text. This
 module holds the operations; the laws about them are in `CodexConfigLaws`.
 */
module CodexConfig {

  import opened Text
  import opened Wrappers

  /** One complete relay routing namespace: its block markers and its side-profile marker. */
  datatype Owner = Owner(id: string, begin: string, end: string, profileMarker: string)

  /** Both owners spell their markers alike around the name of their distribution. */
  function OwnerNamed(id: string, distribution: string): Owner {
    Owner(id,
          "# >>> " + distribution + " managed begin >>>",
          "# <<< " + distribution + " managed end <<<",
          "# " + distribution + "-managed-interactive-profile-v1")
  }

  function ProductionOwner(): Owner {
    OwnerNamed("production", "opencodex-relay")
  }

  function LocalDevelopmentOwner(): Owner {
    OwnerNamed("local_development", "opencodex-relay-dev")
  }

  /** The namespace a call works for, and the one other namespace `knownOwners` lists. */
  datatype Namespace = Namespace(own: Owner, other: Owner)

  /** `validateOwner` admits exactly the two compiled-in owners. */
  predicate Canonical(ns: Namespace) {
    || ns == Namespace(ProductionOwner(), LocalDevelopmentOwner())
    || ns == Namespace(LocalDevelopmentOwner(), ProductionOwner())
  }

  /** One line of text that TOML escaping does not change. */
  predicate Plain(m: string) {
    forall i :: 0 <= i < |m| ==> PlainChar(m[i])
  }

  predicate PlainChar(c: char) {
    c != '\r' && c != '\n' && c != '"' && c != '\\'
  }

  predicate Lacks(m: string, c: char) {
    forall i :: 0 <= i < |m| ==> m[i] != c
  }

  /** What the editor relies on about the spelling of one owner's markers. */
  predicate WellMarked(owner: Owner) {
    && |owner.begin| > 30 && |owner.end| > 30 && owner.profileMarker != ""
    && owner.begin[0] == '#' && Lacks(owner.begin[1..], '#')
    && owner.end[0] == '#' && Lacks(owner.end[1..], '#')
    && Plain(owner.begin) && Plain(owner.end) && Plain(owner.profileMarker)
    && owner.begin[2] == '>' && Lacks(owner.begin, '<')
    && owner.end[2] == '<' && Lacks(owner.end, '>')
  }

  /** No marker of one owner is part of a marker of the other. */
  predicate Distinct(a: Owner, b: Owner) {
    && !Contains(a.begin, b.begin) && !Contains(a.begin, b.end)
    && !Contains(a.end, b.begin) && !Contains(a.end, b.end)
  }

  predicate WellFormed(ns: Namespace) {
    WellMarked(ns.own) && WellMarked(ns.other) && Distinct(ns.own, ns.other)
  }

  const BASE_URL := "openai_base_url"
  const CATALOG := "model_catalog_json"
  const PROVIDER := "model_provider"

  predicate HasMarker(content: string, owner: Owner) {
    Contains(content, owner.begin) || Contains(content, owner.end)
  }

  datatype EditError = ForeignOwner | IncompleteBlock | UnmanagedRouting | UnmanagedProvider

  // ----- Removing the block ------------------------------------------------

  /** The text after the end marker without one directly following line ending. */
  function DropLineEnd(s: string): string {
    if "\r\n" <= s then s[2..] else if "\n" <= s then s[1..] else s
  }

  /** `removeManagedForOwner`. */
  function RemoveManaged(content: string, owner: Owner): Result<string, EditError> {
    var start := IndexOf(content, owner.begin);
    var end := IndexOf(content, owner.end);
    if start == -1 && end == -1 then Ok(content)
    else if start == -1 || end == -1 || end < start then Err(IncompleteBlock)
    else Ok(content[..start] + DropLineEnd(content[end + |owner.end|..]))
  }

  // ----- Reading the root section ------------------------------------------

  /** A line that opens a table ends the root section. */
  predicate IsHeader(line: string) {
    StartsWith(Trim(line), '[')
  }

  function FirstHeader(lines: seq<string>): (k: nat)
    ensures k <= |lines|
    ensures forall i :: 0 <= i < k ==> !IsHeader(lines[i])
    ensures k < |lines| ==> IsHeader(lines[k])
  {
    if lines == [] || IsHeader(lines[0]) then 0 else 1 + FirstHeader(lines[1..])
  }

  /** `rootLines`. */
  function RootLines(content: string): seq<string> {
    var lines := Split(content);
    lines[..FirstHeader(lines)]
  }

  /** What one root line assigns to `key`, given the trimmed line. */
  function AssignedTrimmed(trimmed: string, key: string): Option<string> {
    if StartsWith(trimmed, '#') || !(key <= trimmed) then None
    else
      var rest := Trim(trimmed[|key|..]);
      if StartsWith(rest, '=') then Some(Trim(rest[1..])) else None
  }

  function Assigned(line: string, key: string): Option<string> {
    AssignedTrimmed(Trim(line), key)
  }

  function FirstAssigned(lines: seq<string>, key: string): (r: Option<string>)
    ensures r.None? <==> forall i :: 0 <= i < |lines| ==> Assigned(lines[i], key).None?
  {
    if lines == [] then None
    else if Assigned(lines[0], key).Some? then Assigned(lines[0], key)
    else FirstAssigned(lines[1..], key)
  }

  /** `rootAssignment`: the first assignment to `key` before the first table header. */
  function RootAssignment(content: string, key: string): Option<string> {
    FirstAssigned(RootLines(content), key)
  }

  predicate RootKeyExists(content: string, key: string) {
    RootAssignment(content, key).Some?
  }

  /** The value a right-hand side reads as; a value that is not a quoted string reads as "". */
  function Unquote(rhs: string): string {
    var value := Trim(rhs);
    if |value| < 2 || value[0] != '"' || value[|value| - 1] != '"' then ""
    else UnescapeQuotes(value[1..|value| - 1])
  }

  /** `strings.ReplaceAll(s, "\\\"", "\"")`. */
  function UnescapeQuotes(s: string): string {
    if |s| >= 2 && s[0] == '\\' && s[1] == '"' then "\"" + UnescapeQuotes(s[2..])
    else if s == "" then ""
    else [s[0]] + UnescapeQuotes(s[1..])
  }

  /** `rootString`. */
  function RootString(content: string, key: string): Option<string> {
    match RootAssignment(content, key)
    case None => None
    case Some(value) => Some(Unquote(value))
  }

  /** `rootAssignment` as the source runs it, line by line. */
  method FindRootAssignment(content: string, key: string) returns (r: Option<string>)
    ensures r == RootAssignment(content, key)
  {
    var lines := Split(content);
    ghost var root := RootLines(content);
    for index := 0 to |lines|
      invariant index <= |root|
      invariant FirstAssigned(root, key) == FirstAssigned(root[index..], key)
    {
      var trimmed := Trim(lines[index]);
      if StartsWith(trimmed, '[') {
        assert root[index..] == [];
        return None;
      }
      assert root[index..][1..] == root[index + 1..];
      if StartsWith(trimmed, '#') || !(key <= trimmed) {
        continue;
      }
      var rest := Trim(trimmed[|key|..]);
      if StartsWith(rest, '=') {
        return Some(Trim(rest[1..]));
      }
    }
    assert root[|lines|..] == [];
    r := None;
  }

  // ----- Writing the block -------------------------------------------------

  function EscapeChar(c: char): string {
    if c == '\\' then "\\\\" else if c == '"' then "\\\"" else [c]
  }

  /** `escapeTOML`. */
  function EscapeToml(value: string): string {
    if value == "" then "" else EscapeChar(value[0]) + EscapeToml(value[1..])
  }

  function Assignment(key: string, value: string): string {
    key + " = \"" + EscapeToml(value) + "\""
  }

  function Block(owner: Owner, baseUrl: string, catalog: string): (lines: seq<string>)
    ensures |lines| == 4
  {
    [owner.begin, Assignment(BASE_URL, baseUrl), Assignment(CATALOG, catalog), owner.end]
  }

  /** Place the block before the first table header, or at the end when there is none. */
  function InsertBlock(content: string, block: seq<string>): string
    requires |block| == 4
  {
    var lines := Split(content);
    var insert := FirstHeader(lines);
    Join(lines[..insert] + block + lines[insert..])
  }

  /** The checks `prepareEnableForOwner` makes; `Ok` carries the text the block goes into. */
  function Admit(content: string, ns: Namespace): Result<string, EditError> {
    if HasMarker(content, ns.other) then Err(ForeignOwner)
    else
      match RemoveManaged(content, ns.own)
      case Err(e) => Err(e)
      case Ok(bare) =>
        if RootKeyExists(bare, BASE_URL) || RootKeyExists(bare, CATALOG) then Err(UnmanagedRouting)
        else
          var provider := RootString(bare, PROVIDER);
          if provider.Some? && provider.value != "openai" then Err(UnmanagedProvider) else Ok(bare)
  }

  /** `prepareEnableForOwner`. */
  function PrepareEnable(content: string, ns: Namespace, baseUrl: string, catalog: string): Result<string, EditError> {
    match Admit(content, ns)
    case Err(e) => Err(e)
    case Ok(bare) => Ok(InsertBlock(bare, Block(ns.own, baseUrl, catalog)))
  }

  /** The scan for the insertion point. */
  method FindInsertion(lines: seq<string>) returns (insert: nat)
    ensures insert == FirstHeader(lines)
  {
    insert := |lines|;
    for index := 0 to |lines|
      invariant insert == |lines|
      invariant index <= FirstHeader(lines)
    {
      if IsHeader(lines[index]) {
        insert := index;
        break;
      }
    }
  }

  /** `prepareEnableForOwner` as the source runs it: scan for overrides, scan for the place, insert. */
  method Enable(content: string, ns: Namespace, baseUrl: string, catalog: string)
    returns (r: Result<string, EditError>)
    ensures r == PrepareEnable(content, ns, baseUrl, catalog)
  {
    if HasMarker(content, ns.other) {
      return Err(ForeignOwner);
    }
    var removed := RemoveManaged(content, ns.own);
    if removed.Err? {
      return Err(removed.error);
    }
    var bare := removed.value;
    var url := FindRootAssignment(bare, BASE_URL);
    var models := FindRootAssignment(bare, CATALOG);
    if url.Some? || models.Some? {
      return Err(UnmanagedRouting);
    }
    var provider := RootString(bare, PROVIDER);
    if provider.Some? && provider.value != "openai" {
      return Err(UnmanagedProvider);
    }
    var lines := Split(bare);
    var insert := FindInsertion(lines);
    r := Ok(Join(lines[..insert] + Block(ns.own, baseUrl, catalog) + lines[insert..]));
  }
}
