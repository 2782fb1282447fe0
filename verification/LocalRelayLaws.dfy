/**
 What disabling makes of a home the local relay owns: exactly when the native-repair classifier
 then calls it `state_only`, that whole and unique marker lines are enough, and files at which it
 is not.
 */
module LocalRelayLaws {

  import opened CodexConfig
  import opened CodexConfigLaws
  import opened CodexHome
  import opened CodexHomeLaws
  import opened CodexReadBack
  import opened NativeRepair
  import opened Text
  import opened Wrappers

  predicate CleanFile(config: Node, owner: Owner) {
    config.Regular? ==> CleanSeams(config.text, owner)
  }

  /** The text inspection sees around the block. */
  function BareRead(home: Home, ns: Namespace): Result<string, EditError>
    requires ReadOptional(home.config).Ok?
  {
    RemoveManaged(ReadOptional(home.config).value, ns.own)
  }

  /** What a `local_relay` verdict says about the files. */
  lemma {:induction false} LocalRelayMeans(home: Home, ns: Namespace)
    requires Classified(home, ns, LocalRelay)
    ensures ReadOptional(home.config).Ok? && BareRead(home, ns).Ok?
    ensures CleanRoot(BareRead(home, ns).value) && !HasMarker(BareRead(home, ns).value, ns.other)
    ensures InspectRouting(home, ns).Ok? && ProfileSafe(home.profile) && home.foreignProfile.Absent?
    ensures !InspectRouting(home, ns).value.foreignManagedRoot &&
        !InspectRouting(home, ns).value.foreignInteractiveProfile
  {
    hide IndexOf, RemoveManaged, RootAssignment, Unquote, BaseClaims, CatalogClaims, ProviderClaims, RootLines,
      ValidProfile, CleanRoot, Normalise;
    NoClaims(BareRead(home, ns).value);
  }

  /** A `local_relay` home can always be disabled, and the configuration then reads as what was around the block. */
  lemma {:induction false} LocalRelayDisables(home: Home, ns: Namespace)
    requires WellFormed(ns) && Classified(home, ns, LocalRelay)
    ensures DisabledHome(home, ns).Ok?
    ensures var after := DisabledHome(home, ns).value;
            && after.profile.Absent? && after.foreignProfile.Absent?
            && ReadOptional(after.config).Ok? && ReadOptional(home.config).Ok? && BareRead(home, ns).Ok?
            && (CleanFile(home.config, ns.own) ==> ReadOptional(after.config).value == BareRead(home, ns).value)
  {
    hide RemoveManaged, RootAssignment, Unquote, CleanRoot, Normalise, InspectRouting, CleanSeams, Inspect;
    LocalRelayMeans(home, ns);
    if home.config.Regular? {
      RemovalCommutes(home.config.text, ns.own);
    } else {
      RemoveFromEmpty(ns.own);
    }
  }

  lemma {:induction false} RemoveFromEmpty(owner: Owner)
    requires WellMarked(owner)
    ensures RemoveManaged("", owner) == Ok("")
  {}

  /** Native validation of a home without profiles, in terms of the text it reads. */
  lemma {:induction false} NativeOfBare(home: Home, ns: Namespace, bare: string)
    requires home.profile.Absent? && home.foreignProfile.Absent? && ReadOptional(home.config) == Ok(bare)
    requires !RootKeyExists(bare, BASE_URL) && !RootKeyExists(bare, CATALOG)
    requires RootString(bare, PROVIDER).Some? ==> RootString(bare, PROVIDER).value == "openai"
    requires !HasMarker(bare, ns.other)
    ensures ValidateNative(home, ns) <==> !HasMarker(bare, ns.own)
  {
    hide IndexOf, RootAssignment, Unquote, Normalise;
  }

  // ----- What stays behind -----------------------------------------------------

  function RawText(config: Node): string { if config.Regular? then config.text else "" }

  /** Cutting out the first block leaves a marker: one behind it, or one that the cut joins together. */
  predicate MarkersLeft(text: string, owner: Owner) {
    var start, end := IndexOf(text, owner.begin), IndexOf(text, owner.end);
    0 <= start <= end &&
    var front, rest := text[..start], DropLineEnd(text[end + |owner.end|..]);
    HasMarker(rest, owner) || Straddles(front, rest, owner.begin) || Straddles(front, rest, owner.end)
  }

  /** In front of the first begin marker stands no begin marker, nor an end marker that comes later. */
  lemma {:induction false} NothingInFront(text: string, m: string, start: nat)
    requires m != "" && start <= |text| && IndexOf(text, m) >= start
    ensures !Contains(text[..start], m)
  {
    hide IndexOf;
    assert text[0..start] == text[..start];
    OccursInPart(text, m, 0, start, IndexOf(text[..start], m));
  }

  /** What removal leaves holds a marker exactly when one stays behind. */
  lemma {:induction false} RemovalLeaves(text: string, owner: Owner)
    requires WellMarked(owner) && RemoveManaged(text, owner).Ok?
    ensures HasMarker(RemoveManaged(text, owner).value, owner) <==> MarkersLeft(text, owner)
  {
    hide IndexOf, DropLineEnd, Straddles, WellMarked;
    assert owner.begin != "" && owner.end != "" by { MarkersNotEmpty(owner); }
    var start, end := IndexOf(text, owner.begin), IndexOf(text, owner.end);
    if start >= 0 {
      var front, rest := text[..start], DropLineEnd(text[end + |owner.end|..]);
      NothingInFront(text, owner.begin, start);
      NothingInFront(text, owner.end, start);
      ContainsJoined(front, rest, owner.begin);
      ContainsJoined(front, rest, owner.end);
    }
  }

  lemma {:induction false} MarkersNotEmpty(owner: Owner)
    requires WellMarked(owner)
    ensures owner.begin != "" && owner.end != ""
  {
  }

  /** What inspection reads after the disable holds a marker exactly when the file leaves one. */
  lemma {:induction false} ReadLeaves(home: Home, ns: Namespace)
    requires WellFormed(ns) && ReadOptional(home.config).Ok? && BareRead(home, ns).Ok? && CleanFile(home.config, ns.own)
    ensures HasMarker(BareRead(home, ns).value, ns.own) <==> MarkersLeft(RawText(home.config), ns.own)
  {
    hide IndexOf, RemoveManaged, Normalise, CleanSeams, MarkersLeft, Distinct, WellMarked;
    if home.config.Regular? {
      var raw := home.config.text;
      RemovalCommutes(raw, ns.own);
      RemovalLeaves(raw, ns.own);
      NormaliseMarkers(RemoveManaged(raw, ns.own).value, ns.own);
    } else {
      RemovalLeaves("", ns.own);
    }
  }

  /**
   Disabling a home the local relay owns, with clean seams, makes it `state_only` if and only
   if cutting the first block out of the file leaves no marker of the owner, neither one that
   stands behind the block nor one that the cut joins together.
   */
  lemma {:induction false} LocalRelayBecomesNative(home: Home, ns: Namespace)
    requires WellFormed(ns) && Classified(home, ns, LocalRelay) && CleanFile(home.config, ns.own)
    ensures DisabledHome(home, ns).Ok?
    ensures Classified(DisabledHome(home, ns).value, ns, StateOnly) <==> !MarkersLeft(RawText(home.config), ns.own)
  {
    hide RemoveManaged, HasMarker, RootAssignment, Unquote, CleanRoot, OnlyOpenAI, Normalise, Inspect, CleanSeams,
      DisabledHome, ReadOptional, Classified, MarkersLeft;
    LocalRelayMeans(home, ns);
    LocalRelayDisables(home, ns);
    ReadLeaves(home, ns);
    var after := DisabledHome(home, ns).value;
    var bare := BareRead(home, ns).value;
    StateOnlyIsNative(after, ns);
    CleanRootByKeys(bare);
    NativeOfBare(after, ns, bare);
  }

  // ----- Whole and unique marker lines -------------------------------------------

  ghost predicate Once(text: string, m: string) {
    forall i: int, j: int :: OccursAt(text, m, i) && OccursAt(text, m, j) ==> i == j
  }

  predicate EveryCrBeforeLf(text: string) {
    forall i :: 0 <= i < |text| && text[i] == '\r' ==> i + 1 < |text| && text[i + 1] == '\n'
  }

  /** The first begin marker starts a line, and a line ending or nothing follows the first end marker. */
  predicate WholeLines(text: string, owner: Owner) {
    var start, end := IndexOf(text, owner.begin), IndexOf(text, owner.end);
    && (start > 0 ==> text[start - 1] == '\n')
    && (end >= 0 ==> var behind := text[end + |owner.end|..]; behind == "" || "\n" <= behind || "\r\n" <= behind)
  }

  /** A file as an editor leaves it: whole marker lines, each marker once, and no stray CR. */
  ghost predicate Tidy(text: string, owner: Owner) {
    WholeLines(text, owner) && Once(text, owner.begin) && Once(text, owner.end) && EveryCrBeforeLf(text)
  }

  lemma {:induction false} TidySeams(text: string, owner: Owner)
    requires WellMarked(owner) && Tidy(text, owner)
    ensures CleanSeams(text, owner)
  {
    hide IndexOf, DropLineEnd, WellMarked;
    var start, end := IndexOf(text, owner.begin), IndexOf(text, owner.end);
    if 0 <= start <= end {
      var at := end + |owner.end|;
      var behind := text[at..];
      assert forall i :: 0 <= i < |behind| ==> behind[i] == text[at + i];
      assert "\r\r\n"[0] == '\r' && "\r\r\n"[1] == '\r';
      assert start > 0 ==> text[..start][start - 1] == '\n';
    }
  }

  /** Text behind the first block holds no marker that occurs only once. */
  lemma {:induction false} OnceNotBehind(text: string, m: string, rest: string)
    requires m != "" && |rest| <= |text| && rest == text[|text| - |rest|..]
    requires 0 <= IndexOf(text, m) < |text| - |rest| && Once(text, m)
    ensures !Contains(rest, m)
  {
    hide IndexOf, OccursAt;
    var from := |text| - |rest|;
    assert text[from..|text|] == rest;
    OccursInPart(text, m, from, |text|, IndexOf(rest, m));
    assert OccursAt(text, m, IndexOf(text, m));
  }

  /** No text without LF is cut by a seam in front of which a line ends. */
  lemma {:induction false} NotAcrossLine(front: string, rest: string, m: string)
    requires Lacks(m, '\n') && (front == "" || front[|front| - 1] == '\n')
    ensures !Straddles(front, rest, m)
  {
    forall k | 0 < k < |m|
      ensures !StraddlesAt(front, rest, m, k)
    {
      if StraddlesAt(front, rest, m, k) {
        StraddleTouches(front, rest, m, k);
      }
    }
  }

  lemma {:induction false} DropIsSuffix(s: string)
    ensures var d := DropLineEnd(s); |d| <= |s| && d == s[|s| - |d|..]
  {
  }

  lemma {:induction false} TidyLeavesNothing(text: string, owner: Owner)
    requires WellMarked(owner) && Tidy(text, owner)
    ensures !MarkersLeft(text, owner)
  {
    hide IndexOf, DropLineEnd, Once, Straddles, EveryCrBeforeLf, WellMarked, Lacks;
    MarkersNotEmpty(owner);
    MarkersOneLine(owner);
    var start, end := IndexOf(text, owner.begin), IndexOf(text, owner.end);
    if 0 <= start <= end {
      NoMarkerLeft(text, owner.begin, start, end + |owner.end|);
      NoMarkerLeft(text, owner.end, start, end + |owner.end|);
    }
  }

  /** A marker that occurs once, inside the part that is cut out. */
  lemma {:induction false} NoMarkerLeft(text: string, m: string, start: nat, at: nat)
    requires m != "" && Lacks(m, '\n') && start <= at <= |text| && (start > 0 ==> text[start - 1] == '\n')
    requires 0 <= IndexOf(text, m) < at && Once(text, m)
    ensures var front, rest := text[..start], DropLineEnd(text[at..]); !Contains(rest, m) && !Straddles(front, rest, m)
  {
    hide IndexOf, DropLineEnd, Once, Straddles, Lacks;
    var front, rest := text[..start], DropLineEnd(text[at..]);
    DropIsSuffix(text[at..]);
    assert rest == text[|text| - |rest|..];
    OnceNotBehind(text, m, rest);
    assert start > 0 ==> front[|front| - 1] == '\n';
    NotAcrossLine(front, rest, m);
  }

  lemma {:induction false} MarkersOneLine(owner: Owner)
    requires WellMarked(owner)
    ensures Lacks(owner.begin, '\n') && Lacks(owner.end, '\n')
  {
    assert forall i :: 0 <= i < |owner.begin| ==> PlainChar(owner.begin[i]);
    assert forall i :: 0 <= i < |owner.end| ==> PlainChar(owner.end[i]);
  }

  /** Whatever file the local relay owns: if it is tidy, disabling it makes the home `state_only`. */
  lemma {:induction false} TidyBecomesNative(home: Home, ns: Namespace)
    requires WellFormed(ns) && Classified(home, ns, LocalRelay) && Tidy(RawText(home.config), ns.own)
    ensures DisabledHome(home, ns).Ok? && Classified(DisabledHome(home, ns).value, ns, StateOnly)
  {
    hide Classified, DisabledHome, Tidy, MarkersLeft, CleanSeams, Distinct, WellMarked;
    TidySeams(RawText(home.config), ns.own);
    TidyLeavesNothing(RawText(home.config), ns.own);
    LocalRelayBecomesNative(home, ns);
  }

  // ----- Files that do not become native ---------------------------------------------

  /** Lines that are empty or begin with a hash sign say nothing. */
  predicate SaysNothing(line: string) { line == "" || line[0] == '#' }

  lemma {:induction false} LineSaysNothing(line: string, key: string)
    requires SaysNothing(line) && key != ""
    ensures Assigned(line, key).None? && !IsHeader(line)
  {
    hide Assigned, IsHeader;
    if line == "" {
      EmptyLine(key);
    } else {
      MarkerLineAssignsNothing(line, key);
    }
  }

  lemma {:induction false} CommentsAreClean(text: string)
    requires forall i :: 0 <= i < |Split(text)| ==> SaysNothing(Split(text)[i])
    ensures CleanRoot(text)
  {
    hide Assigned, IsHeader, Split, SaysNothing, Unquote, IsOpenAI;
    forall i | 0 <= i < |RootLines(text)|
      ensures var line := RootLines(text)[i]; !SetsBase(line) && !SetsCatalog(line) && !SetsProvider(line)
    {
      assert RootLines(text)[i] == Split(text)[i];
      LineSaysNothing(Split(text)[i], BASE_URL);
      LineSaysNothing(Split(text)[i], CATALOG);
      LineSaysNothing(Split(text)[i], PROVIDER);
    }
  }

  function HomeWith(text: string): Home { Home(Regular(text, true), Absent, Absent) }

  /** A file with a block, nothing of the other owner and nothing but comments around the block. */
  lemma {:induction false} BlockIsLocalRelay(raw: string, ns: Namespace, bare: string)
    requires var read := Normalise(raw);
             && RemoveManaged(read, ns.own) == Ok(bare)
             && Contains(read, ns.own.begin) && Contains(read, ns.own.end) && !HasMarker(read, ns.other)
    requires !HasMarker(bare, ns.other) && CleanRoot(bare)
    ensures Classified(HomeWith(raw), ns, LocalRelay)
  {
    hide IndexOf, RemoveManaged, RootAssignment, Unquote, BaseClaims, CatalogClaims, ProviderClaims, RootLines,
      ValidProfile, CleanRoot, Normalise, Contains;
    NoClaims(bare);
  }

  /** A marker as text: one line with its only hash sign in front. */
  predicate MarkerLike(m: string) {
    |m| > 30 && m[0] == '#' && Lacks(m[1..], '#') && Plain(m)
  }

  /** In a text whose only hash sign is in front, a marker is found in front or not at all. */
  lemma {:induction false} OneHash(s: string, m: string)
    requires MarkerLike(m) && s != "" && Lacks(s[1..], '#')
    ensures IndexOf(s, m) == if m <= s then 0 else -1
  {
    hide IndexOf, Plain;
    PrefixIsFirst(s, m);
    assert forall j :: 0 < j < |s| ==> s[j] == s[1..][j - 1] && s[j] != '#';
    OccursChars(s, m, IndexOf(s, m));
    assert m[0] == '#';
  }

  /** In front of a begin marker stand its first characters once more. */
  lemma {:induction false} TwoHashes(b: string, k: nat, m: string)
    requires MarkerLike(b) && MarkerLike(m) && 1 <= k <= 5
    ensures IndexOf(b[..k] + b, m) == if m <= b then k else -1
  {
    hide IndexOf, Plain;
    var s := b[..k] + b;
    assert s[k..|s|] == b;
    OneHash(b, m);
    OccursInPart(s, m, k, |s|, IndexOf(b, m));
    var i := IndexOf(s, m);
    OccursChars(s, m, i);
    assert forall j :: 0 < j < k ==> s[j] == b[1..][j - 1] && s[j] != '#';
    assert m[0] == '#' && m[k] == m[1..][k - 1] && m[k] != '#' && s[k] == '#';
    OccursBehindFront(s, m, k, i);
  }

  lemma {:induction false} OccursBehindFront(s: string, m: string, k: nat, i: int)
    requires k <= |s|
    ensures OccursAt(s, m, i) && i >= k ==> OccursAt(s[k..], m, i - k)
  {
    if OccursAt(s, m, i) && i >= k {
      assert s[k..][i - k..i - k + |m|] == s[i..i + |m|];
    }
  }

  lemma {:induction false} OwnMarkerLike(owner: Owner)
    requires WellMarked(owner)
    ensures MarkerLike(owner.begin) && MarkerLike(owner.end)
    ensures !(owner.begin <= owner.end) && !(owner.end <= owner.begin)
  {
    assert owner.begin[2] != owner.end[2];
  }

  function Production(): Namespace { Namespace(ProductionOwner(), LocalDevelopmentOwner()) }

  /** What the examples use of the compiled-in markers. */
  predicate ExampleFacts(ns: Namespace) {
    && WellFormed(ns)
    && MarkerLike(ns.own.begin) && MarkerLike(ns.own.end) && MarkerLike(ns.other.begin) && MarkerLike(ns.other.end)
    && !(ns.own.begin <= ns.own.end) && !(ns.own.end <= ns.own.begin)
    && !(ns.other.begin <= ns.own.begin) && !(ns.other.end <= ns.own.begin)
    && ns.own.end[2] != ns.own.begin[2] && ns.own.end[2] != ns.other.begin[2] && ns.own.end[21] != ns.other.end[21]
  }

  lemma {:induction false} ProductionFacts()
    ensures ExampleFacts(Production())
  {
    var ns := Production();
    CanonicalIsWellFormed(ns);
    OwnMarkerLike(ns.own);
    OwnMarkerLike(ns.other);
    assert ns.own.begin[21] == ' ' && ns.other.begin[21] == '-' && ns.own.end[21] == ' ' && ns.other.end[21] == '-';
    assert ns.own.begin[2] == '>' && ns.other.end[2] == '<';
  }

  /** A marker in two lines is in one of them. */
  lemma {:induction false} InTwoLines(a: string, b: string, m: string)
    requires MarkerLike(m)
    ensures IndexOf(a + "\n" + b, m) ==
            if IndexOf(a, m) >= 0 then IndexOf(a, m)
            else if IndexOf(b, m) >= 0 then |a| + 1 + IndexOf(b, m)
            else -1
  {
    hide IndexOf;
    assert forall i :: 0 <= i < |m| ==> PlainChar(m[i]);
    IndexOfAcross(a, '\n', b, m);
  }

  lemma {:induction false} WithoutCr(s: string)
    requires Lacks(s, '\r')
    ensures Normalise(s) == s
  {
    NormaliseIdentity(s);
  }

  lemma {:induction false} MarkerWithoutCr(m: string)
    requires MarkerLike(m)
    ensures Lacks(m, '\r') && '\n' !in m
  {
    assert forall i :: 0 <= i < |m| ==> PlainChar(m[i]);
  }

  /** The end marker's line with anything without hash signs behind it. */
  lemma {:induction false} EndLine(ns: Namespace, tail: string, m: string)
    requires ExampleFacts(ns) && Lacks(tail, '#') && m in [ns.own.begin, ns.own.end, ns.other.begin, ns.other.end]
    ensures IndexOf(ns.own.end + tail, m) == if m == ns.own.end then 0 else -1
  {
    hide IndexOf, Plain, WellFormed;
    var s := ns.own.end + tail;
    assert s[1..] == ns.own.end[1..] + tail;
    OneHash(s, m);
    assert s[2] == ns.own.end[2] && s[21] == ns.own.end[21];
  }

  /** Two lines: the first with a begin marker behind `k` of its own characters, the second with the end marker. */
  function ExampleText(owner: Owner, k: nat, tail: string): string
    requires k <= |owner.begin|
  {
    owner.begin[..k] + owner.begin + "\n" + (owner.end + tail)
  }

  lemma {:induction false} ExampleSearch(ns: Namespace, k: nat, tail: string, m: string)
    requires ExampleFacts(ns) && 1 <= k <= 5 && Lacks(tail, '#')
    requires m in [ns.own.begin, ns.own.end, ns.other.begin, ns.other.end]
    ensures IndexOf(ExampleText(ns.own, k, tail), m) ==
            if m == ns.own.begin then k else if m == ns.own.end then k + |ns.own.begin| + 1 else -1
  {
    hide IndexOf, WellFormed, Plain;
    var b := ns.own.begin;
    TwoHashes(b, k, m);
    EndLine(ns, tail, m);
    InTwoLines(b[..k] + b, ns.own.end + tail, m);
  }

  lemma {:induction false} MarkersDiffer(ns: Namespace)
    requires ExampleFacts(ns)
    ensures |ns.own.begin| > 30
    ensures ns.own.begin != ns.own.end && ns.other.begin != ns.own.begin && ns.other.end != ns.own.begin
    ensures ns.other.begin != ns.own.end && ns.other.end != ns.own.end
  {
    hide WellFormed, Lacks, Plain;
  }

  lemma {:induction false} ExampleBlock(ns: Namespace, k: nat, tail: string)
    requires ExampleFacts(ns) && 1 <= k <= 5 && Lacks(tail, '#')
    ensures k <= |ns.own.begin|
    ensures var text := ExampleText(ns.own, k, tail);
            && Contains(text, ns.own.begin) && Contains(text, ns.own.end) && !HasMarker(text, ns.other)
            && RemoveManaged(text, ns.own) == Ok(ns.own.begin[..k] + DropLineEnd(tail))
  {
    hide IndexOf, ExampleFacts, DropLineEnd, Lacks;
    MarkersDiffer(ns);
    ExampleSearch(ns, k, tail, ns.own.begin);
    ExampleSearch(ns, k, tail, ns.own.end);
    ExampleSearch(ns, k, tail, ns.other.begin);
    ExampleSearch(ns, k, tail, ns.other.end);
    var text := ExampleText(ns.own, k, tail);
    assert text[..k] == ns.own.begin[..k] && text[k + |ns.own.begin| + 1 + |ns.own.end|..] == tail;
  }

  /** The local relay owns a home with this file, and disabling it does not make it `state_only`. */
  ghost predicate StaysOwned(text: string, ns: Namespace) {
    && Classified(HomeWith(text), ns, LocalRelay)
    && DisabledHome(HomeWith(text), ns).Ok?
    && !Classified(DisabledHome(HomeWith(text), ns).value, ns, StateOnly)
  }

  lemma {:induction false} SeamsWithoutCr(text: string, owner: Owner)
    requires Lacks(text, '\r')
    ensures CleanSeams(text, owner)
  {
    hide IndexOf, DropLineEnd;
    var start, end := IndexOf(text, owner.begin), IndexOf(text, owner.end);
    if 0 <= start <= end {
      var at := end + |owner.end|;
      assert forall i :: 0 <= i < |text[at..]| ==> text[at..][i] == text[at + i];
      assert "\r\r\n"[0] == '\r';
      assert start > 0 ==> text[..start][start - 1] == text[start - 1];
    }
  }

  /** A file without CR whose block leaves a marker when it is removed. */
  lemma {:induction false} LeftMarkerStays(text: string, ns: Namespace, bare: string)
    requires WellFormed(ns) && Lacks(text, '\r') && RemoveManaged(text, ns.own) == Ok(bare)
    requires Contains(text, ns.own.begin) && Contains(text, ns.own.end) && !HasMarker(text, ns.other)
    requires !HasMarker(bare, ns.other) && CleanRoot(bare) && HasMarker(bare, ns.own)
    ensures StaysOwned(text, ns)
  {
    hide IndexOf, RemoveManaged, CleanRoot, Normalise, Classified, DisabledHome, MarkersLeft, CleanSeams, WellFormed,
      Contains, HasMarker, Lacks;
    WithoutCr(text);
    BlockIsLocalRelay(text, ns, bare);
    SeamsWithoutCr(text, ns.own);
    RemovalOfOwned(text, ns);
    LocalRelayBecomesNative(HomeWith(text), ns);
  }

  lemma {:induction false} RemovalOfOwned(text: string, ns: Namespace)
    requires WellFormed(ns) && RemoveManaged(text, ns.own).Ok? && HasMarker(RemoveManaged(text, ns.own).value, ns.own)
    ensures MarkersLeft(text, ns.own)
  {
    hide RemoveManaged, HasMarker, MarkersLeft, WellMarked, Distinct;
    RemovalLeaves(text, ns.own);
  }

  /** A begin marker alone, or with an empty line behind it: comments, and nothing of the other owner. */
  lemma {:induction false} BeginMarkerAlone(ns: Namespace, ending: string)
    requires ExampleFacts(ns) && (ending == "" || ending == "\n")
    ensures var text := ns.own.begin + ending;
            CleanRoot(text) && !HasMarker(text, ns.other) && HasMarker(text, ns.own) && Lacks(text, '\r')
  {
    hide IndexOf, CleanRoot, WellFormed, Plain;
    var b := ns.own.begin;
    var text := b + ending;
    MarkerWithoutCr(b);
    assert text[1..] == b[1..] + ending;
    OneHash(text, b);
    OneHash(text, ns.other.begin);
    OneHash(text, ns.other.end);
    assert text[..|b|] == b;
    assert ns.other.begin <= text ==> ns.other.begin <= b by { MarkerBehindLine(b, ending, ns.other.begin); }
    assert ns.other.end <= text ==> ns.other.end <= b by { MarkerBehindLine(b, ending, ns.other.end); }
    BeginMarkerLines(b, ending);
    CommentsAreClean(text);
  }

  lemma {:induction false} MarkerBehindLine(b: string, ending: string, m: string)
    requires MarkerLike(m) && (ending == "" || ending == "\n")
    ensures m <= b + ending ==> m <= b
  {
    var s := b + ending;
    assert |m| > |b| ==> PlainChar(m[|b|]);
    assert |s| > |b| ==> !PlainChar(s[|b|]);
    if m <= s {
      assert m == s[..|m|];
      assert s[..|b|] == b && b[..|m|] == m;
    }
  }

  lemma {:induction false} BeginMarkerLines(b: string, ending: string)
    requires MarkerLike(b) && (ending == "" || ending == "\n")
    ensures forall i :: 0 <= i < |Split(b + ending)| ==> SaysNothing(Split(b + ending)[i])
  {
    hide Split, Plain;
    MarkerWithoutCr(b);
    SplitOneLine(b);
    if ending == "" {
      assert b + ending == b;
    } else {
      SplitOneLine("");
      SplitAcross(b, "");
      assert b + ending == b + "\n" + "";
    }
  }

  /**
   One begin and one end marker, and the cut joins the characters around them into a begin
   marker: the local relay owns the home, and disabling it does not make it `state_only`.
   */
  lemma {:induction false} JoinedMarkerExample()
    ensures |ProductionOwner().begin| > 5
    ensures StaysOwned(ExampleText(ProductionOwner(), 5, ProductionOwner().begin[5..]), Production())
  {
    hide ProductionOwner, LocalDevelopmentOwner, ExampleFacts, StaysOwned, ExampleText;
    ProductionFacts();
    assert |ProductionOwner().begin| > 5 by { FactsGive(Production()); }
    JoinedMarker(Production());
  }

  lemma {:induction false} FactsGive(ns: Namespace)
    requires ExampleFacts(ns)
    ensures WellFormed(ns) && |ns.own.begin| > 30 && |ns.own.end| > 30
    ensures Lacks(ns.own.begin, '\r') && Lacks(ns.own.end, '\r') && Lacks(ns.own.begin[5..], '#')
    ensures ns.own.begin[5] != '\n'
  {
    hide WellFormed;
    var b := ns.own.begin;
    MarkerWithoutCr(b);
    MarkerWithoutCr(ns.own.end);
    assert forall i :: 0 <= i < |b[5..]| ==> b[5..][i] == b[1..][i + 4];
  }

  lemma {:induction false} JoinedMarker(ns: Namespace)
    requires ExampleFacts(ns) && |ns.own.begin| > 5
    ensures StaysOwned(ExampleText(ns.own, 5, ns.own.begin[5..]), ns)
  {
    hide ExampleFacts, StaysOwned, RemoveManaged, CleanRoot, HasMarker, WellFormed, Contains;
    FactsGive(ns);
    var b := ns.own.begin;
    ExampleBlock(ns, 5, b[5..]);
    assert b[5..][0] == b[5] && DropLineEnd(b[5..]) == b[5..] && b[..5] + b[5..] == b && b + "" == b;
    BeginMarkerAlone(ns, "");
    LeftMarkerStays(ExampleText(ns.own, 5, b[5..]), ns, b);
  }

  /** A second begin marker on a line of its own behind the block: the same. */
  lemma {:induction false} SecondMarkerExample()
    ensures var owner := ProductionOwner();
            StaysOwned(owner.begin + "\n" + (owner.end + "\n" + (owner.begin + "\n")), Production())
  {
    hide ProductionOwner, LocalDevelopmentOwner, ExampleFacts, StaysOwned;
    ProductionFacts();
    SecondMarker(Production());
  }

  lemma {:induction false} SecondMarkerText(ns: Namespace, m: string)
    requires ExampleFacts(ns) && m in [ns.own.begin, ns.own.end, ns.other.begin, ns.other.end]
    ensures IndexOf(ns.own.begin + "\n" + (ns.own.end + "\n" + (ns.own.begin + "\n")), m) ==
            if m == ns.own.begin then 0 else if m == ns.own.end then |ns.own.begin| + 1 else -1
  {
    hide IndexOf, WellFormed, Plain;
    var b, e := ns.own.begin, ns.own.end;
    assert b + "\n" == b + "\n" + "" && e + "" == e;
    OneHash(b, m);
    EndLine(ns, "", m);
    InTwoLines(b, "", m);
    InTwoLines(e, b + "\n", m);
    InTwoLines(b, e + "\n" + (b + "\n"), m);
  }

  lemma {:induction false} SecondMarker(ns: Namespace)
    requires ExampleFacts(ns)
    ensures StaysOwned(ns.own.begin + "\n" + (ns.own.end + "\n" + (ns.own.begin + "\n")), ns)
  {
    hide StaysOwned, CleanRoot, WellFormed, IndexOf, ExampleFacts, RemoveManaged, HasMarker, Contains;
    FactsGive(ns);
    var b, e := ns.own.begin, ns.own.end;
    SecondMarkerRemoval(ns);
    BeginMarkerAlone(ns, "\n");
    LeftMarkerStays(b + "\n" + (e + "\n" + (b + "\n")), ns, b + "\n");
  }

  lemma {:induction false} SecondMarkerRemoval(ns: Namespace)
    requires ExampleFacts(ns)
    ensures var text := ns.own.begin + "\n" + (ns.own.end + "\n" + (ns.own.begin + "\n"));
            && Contains(text, ns.own.begin) && Contains(text, ns.own.end) && !HasMarker(text, ns.other)
            && RemoveManaged(text, ns.own) == Ok(ns.own.begin + "\n")
  {
    hide IndexOf, ExampleFacts, DropLineEnd;
    MarkersDiffer(ns);
    SecondMarkerText(ns, ns.own.begin);
    SecondMarkerText(ns, ns.own.end);
    SecondMarkerText(ns, ns.other.begin);
    SecondMarkerText(ns, ns.other.end);
    CutFirstLines(ns.own, ns.own.begin + "\n");
  }

  lemma {:induction false} CutFirstLines(owner: Owner, rest: string)
    requires var text := owner.begin + "\n" + (owner.end + "\n" + rest);
             IndexOf(text, owner.begin) == 0 && IndexOf(text, owner.end) == |owner.begin| + 1
    ensures RemoveManaged(owner.begin + "\n" + (owner.end + "\n" + rest), owner) == Ok(rest)
  {
    hide IndexOf, DropLineEnd;
    var text := owner.begin + "\n" + (owner.end + "\n" + rest);
    assert text[|owner.begin| + 1 + |owner.end|..] == "\n" + rest;
    DropsLf(rest);
    assert text[..0] + rest == rest;
  }

  // ----- A seam that brings a key to life ---------------------------------------------

  function HiddenKey(): string { Assignment(BASE_URL, "") }

  predicate Unremarkable(s: string) { Lacks(s, '#') && Lacks(s, '\r') && Lacks(s, '\n') }

  lemma {:induction false} KeyChars()
    ensures Unremarkable(BASE_URL) && |BASE_URL| > 1 && BASE_URL[1] == 'p'
  {
  }

  lemma {:induction false} QuoteChars()
    ensures Unremarkable(" = \"") && Unremarkable("\"") && EscapeToml("") == ""
  {
  }

  lemma {:induction false} HiddenKeyChars()
    ensures var l := HiddenKey(); Unremarkable(l) && |l| > 1 && l[1] == 'p'
  {
    hide EscapeToml;
    KeyChars();
    QuoteChars();
    UnremarkableTogether(BASE_URL, " = \"");
    UnremarkableTogether(BASE_URL + " = \"", "");
    UnremarkableTogether(BASE_URL + " = \"" + "", "\"");
  }

  lemma {:induction false} UnremarkableTogether(a: string, b: string)
    requires Unremarkable(a) && Unremarkable(b)
    ensures Unremarkable(a + b)
  {
  }

  lemma {:induction false} HiddenKeyFacts()
    ensures var l := HiddenKey();
            && Unremarkable(l) && |l| > 1 && l[1] == 'p'
            && Assigned(l, BASE_URL).Some? && !IsHeader(l)
  {
    hide Assigned, IsHeader, Unremarkable, Assignment;
    HiddenKeyChars();
    ManagedKeys();
    AssignmentAssigns(BASE_URL, "");
    AssignmentNoHeader(BASE_URL, "");
  }

  /** The example as inspection reads it. */
  lemma {:induction false} DirtySeamRead(ns: Namespace)
    requires ExampleFacts(ns) && |ns.own.begin| > 30
    ensures Normalise(ExampleText(ns.own, 1, "\r\r\n" + HiddenKey())) == ExampleText(ns.own, 1, "\r\n" + HiddenKey())
  {
    hide Normalise, ExampleFacts, HiddenKey;
    FactsGive(ns);
    HiddenKeyFacts();
    var l, b := HiddenKey(), ns.own.begin;
    var front := b[..1] + b + "\n" + ns.own.end;
    WithoutCr(front);
    WithoutCr(l);
    NormaliseAppend(front, "\r\r\n" + l);
    NormaliseAppend("\r\r\n", l);
    NormaliseTwiceExample();
    assert ExampleText(ns.own, 1, "\r\r\n" + l) == front + ("\r\r\n" + l);
    assert ExampleText(ns.own, 1, "\r\n" + l) == front + ("\r\n" + l);
  }

  lemma {:induction false} DropBehindCr(l: string)
    ensures DropLineEnd("\r\r\n" + l) == "\r\r\n" + l && DropLineEnd("\r\n" + l) == l
  {
    var s := "\r\r\n" + l;
    assert s[0] == '\r' && s[1] == '\r' && "\r\n"[1] == '\n' && "\n"[0] == '\n';
    assert ("\r\n" + l)[2..] == l && "\r\n" <= "\r\n" + l;
  }

  /** Read without its block, the file is one comment line. */
  lemma {:induction false} HiddenInComment(ns: Namespace)
    requires ExampleFacts(ns)
    ensures var bare := "#" + HiddenKey(); CleanRoot(bare) && !HasMarker(bare, ns.other)
  {
    hide IndexOf, CleanRoot, Plain, HiddenKey, Distinct, Split;
    HiddenKeyFacts();
    var bare := "#" + HiddenKey();
    assert bare[1..] == HiddenKey();
    SplitOneLine(bare);
    CommentsAreClean(bare);
    OneHash(bare, ns.other.begin);
    OneHash(bare, ns.other.end);
    assert bare[2] == 'p';
  }

  /** On disk the key stands on a line of its own once the block is gone. */
  lemma {:induction false} KeyComesToLife()
    ensures RootKeyExists(Normalise("#" + ("\r\r\n" + HiddenKey())), BASE_URL)
  {
    hide Normalise, HiddenKey, Assigned, IsHeader, Split;
    HiddenKeyFacts();
    var l := HiddenKey();
    var text := "#" + ("\r\r\n" + l);
    var first := "#\r\r";
    assert text == first + "\n" + l;
    SplitOneLine(first);
    SplitOneLine(l);
    SplitAcross(first, l);
    MarkerLineAssignsNothing(first, BASE_URL);
    assert FirstHeader([first, l]) == 2;
    assert RootLines(text) == [first, l];
    assert Assigned([first, l][1], BASE_URL).Some?;
    NormaliseReads(text, BASE_URL);
  }

  /**
   Clean seams are needed too: here the two line endings are cut differently from the raw file
   and from the text as read, and a key that was part of a comment comes to life.
   */
  lemma {:induction false} DirtySeamKeyExample()
    ensures |ProductionOwner().begin| > 30
    ensures StaysOwned(ExampleText(ProductionOwner(), 1, "\r\r\n" + HiddenKey()), Production())
  {
    hide ProductionOwner, LocalDevelopmentOwner, ExampleFacts, StaysOwned, ExampleText, HiddenKey;
    ProductionFacts();
    FactsGive(Production());
    DirtySeamKey(Production());
  }

  lemma {:induction false} DirtySeamKey(ns: Namespace)
    requires ExampleFacts(ns) && |ns.own.begin| > 30
    ensures StaysOwned(ExampleText(ns.own, 1, "\r\r\n" + HiddenKey()), ns)
  {
    hide ExampleFacts, Classified, DisabledHome, RemoveManaged, HasMarker, WellFormed, ExampleText, Normalise,
      HiddenKey, RootKeyExists;
    var raw, left := ExampleText(ns.own, 1, "\r\r\n" + HiddenKey()), "#" + ("\r\r\n" + HiddenKey());
    FactsGive(ns);
    DirtySeamOwned(ns);
    DirtySeamCut(ns);
    LocalRelayDisables(HomeWith(raw), ns);
    DisabledText(raw, ns, left);
    KeyComesToLife();
    NotNativeWithKey(left, ns);
  }

  lemma {:induction false} DirtySeamOwned(ns: Namespace)
    requires ExampleFacts(ns) && |ns.own.begin| > 30
    ensures Classified(HomeWith(ExampleText(ns.own, 1, "\r\r\n" + HiddenKey())), ns, LocalRelay)
  {
    hide ExampleFacts, Classified, RemoveManaged, CleanRoot, HasMarker, Contains, ExampleText, Normalise, HiddenKey,
      DropLineEnd, Unremarkable;
    var l := HiddenKey();
    FirstIsHash(ns);
    DirtySeamRead(ns);
    DropBehindCr(l);
    assert Lacks("\r\n" + l, '#') by { HiddenBehind("\r\n"); }
    ExampleBlock(ns, 1, "\r\n" + l);
    HiddenInComment(ns);
    BlockIsLocalRelay(ExampleText(ns.own, 1, "\r\r\n" + l), ns, "#" + l);
  }

  lemma {:induction false} HiddenBehind(ending: string)
    requires Lacks(ending, '#')
    ensures Lacks(ending + HiddenKey(), '#')
  {
    hide HiddenKey;
    HiddenKeyChars();
  }

  /** What the removal leaves on disk. */
  lemma {:induction false} DirtySeamCut(ns: Namespace)
    requires ExampleFacts(ns) && |ns.own.begin| > 30
    ensures var raw, left := ExampleText(ns.own, 1, "\r\r\n" + HiddenKey()), "#" + ("\r\r\n" + HiddenKey());
            RemoveManaged(raw, ns.own) == Ok(left) && left != raw
  {
    hide ExampleFacts, RemoveManaged, HasMarker, Contains, HiddenKey, DropLineEnd, Unremarkable;
    var l := HiddenKey();
    FirstIsHash(ns);
    DropBehindCr(l);
    assert Lacks("\r\r\n" + l, '#') by { HiddenBehind("\r\r\n"); }
    ExampleBlock(ns, 1, "\r\r\n" + l);
    assert |ExampleText(ns.own, 1, "\r\r\n" + l)| > |"#" + ("\r\r\n" + l)|;
  }

  lemma {:induction false} FirstIsHash(ns: Namespace)
    requires ExampleFacts(ns)
    ensures ns.own.begin[..1] == "#"
  {
    hide WellFormed, Lacks, Plain;
  }

  lemma {:induction false} DisabledText(raw: string, ns: Namespace, left: string)
    requires RemoveManaged(raw, ns.own) == Ok(left) && left != raw && DisabledHome(HomeWith(raw), ns).Ok?
    ensures DisabledHome(HomeWith(raw), ns).value == HomeWith(left)
  {
    hide RemoveManaged, InspectRouting;
  }

  lemma {:induction false} NotNativeWithKey(text: string, ns: Namespace)
    requires RootKeyExists(Normalise(text), BASE_URL)
    ensures !Classified(HomeWith(text), ns, StateOnly)
  {
    hide Classified, RootKeyExists, IndexOf, Normalise, RootString;
    StateOnlyIsNative(HomeWith(text), ns);
  }
}
