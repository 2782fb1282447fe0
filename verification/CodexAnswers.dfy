/**
 Exactly when the routing edits are accepted and which refusal they give otherwise, in terms of
 the markers in the file and of what its root lines spell.
 */
module CodexAnswers {

  import opened CodexConfig
  import opened CodexConfigLaws
  import opened CodexHome
  import opened CodexHomeLaws
  import opened NativeRepair
  import opened Text
  import opened Wrappers

  // ----- What a root line spells -------------------------------------------

  predicate Blank(s: string) {
    forall i :: 0 <= i < |s| ==> IsSpace(s[i])
  }

  /** The line is `key = value`, with any white space around the key. */
  predicate Spells(line: string, key: string, a: string, b: string, value: string) {
    Blank(a) && Blank(b) && line == a + key + b + "=" + value
  }

  /** Lower-case letters and underscores, as all three root keys are spelled. */
  predicate IsWord(key: string) {
    key != "" && forall i :: 0 <= i < |key| ==> 'a' <= key[i] <= 'z' || key[i] == '_'
  }

  lemma {:induction false} RootKeysAreWords()
    ensures IsWord(BASE_URL) && IsWord(CATALOG) && IsWord(PROVIDER)
  {}

  lemma {:induction false} WordStart(key: string)
    requires IsWord(key)
    ensures !IsSpace(key[0]) && key[0] != '#' && !IsSpace('=')
  {}

  lemma {:induction false} TrimLeftBlank(a: string, s: string)
    requires Blank(a) && s != "" && !IsSpace(s[0])
    ensures TrimLeft(a + s) == s
  {
    hide IsSpace;
    if a == "" {
      assert a + s == s;
    } else {
      assert (a + s)[1..] == a[1..] + s;
      TrimLeftBlank(a[1..], s);
    }
  }

  lemma {:induction false} TrimRightBehind(p: string, s: string)
    requires p != "" && !IsSpace(p[|p| - 1])
    ensures TrimRight(p + s) == p + TrimRight(s)
    decreases |s|
  {
    hide IsSpace;
    if s == "" {
      assert p + s == p;
    } else if IsSpace(s[|s| - 1]) {
      assert (p + s)[..|p + s| - 1] == p + s[..|s| - 1];
      TrimRightBehind(p, s[..|s| - 1]);
    }
  }

  lemma {:induction false} TrimRightTwice(s: string)
    ensures TrimRight(TrimRight(s)) == TrimRight(s) && Trim(TrimRight(s)) == Trim(s)
    decreases |s|
  {
    hide IsSpace, TrimLeft;
    if s != "" && IsSpace(s[|s| - 1]) {
      var front := s[..|s| - 1];
      TrimRightTwice(front);
      assert s == front + [s[|s| - 1]];
      TrimAppendSpace(front, s[|s| - 1]);
    }
  }

  /** What trimming takes off on both sides is white space. */
  lemma {:induction false} TrimTakesBlanks(s: string) returns (a: string, z: string)
    ensures Blank(a) && Blank(z) && s == a + Trim(s) + z
  {
    hide IsSpace;
    var t := TrimLeft(s);
    a := TrimLeftTakes(s);
    z := TrimRightTakes(t);
    assert a + Trim(s) + z == a + (Trim(s) + z);
  }

  lemma {:induction false} TrimLeftTakes(s: string) returns (a: string)
    ensures Blank(a) && s == a + TrimLeft(s)
  {
    hide IsSpace;
    a := "";
    if s != "" && IsSpace(s[0]) {
      var b := TrimLeftTakes(s[1..]);
      a := [s[0]] + b;
      assert s == [s[0]] + s[1..];
    }
  }

  lemma {:induction false} TrimRightTakes(s: string) returns (z: string)
    ensures Blank(z) && s == TrimRight(s) + z
  {
    hide IsSpace;
    z := "";
    if s != "" && IsSpace(s[|s| - 1]) {
      var y := TrimRightTakes(s[..|s| - 1]);
      z := y + [s[|s| - 1]];
      assert s == s[..|s| - 1] + [s[|s| - 1]];
    }
  }

  /** A line that spells an assignment assigns the trimmed value. */
  lemma {:induction false} SpelledIsAssigned(line: string, key: string, a: string, b: string, value: string)
    requires IsWord(key) && Spells(line, key, a, b, value)
    ensures Assigned(line, key) == Some(Trim(value))
  {
    hide IsSpace, TrimLeft, TrimRight;
    WordStart(key);
    var head := key + b + "=";
    var tail := TrimRight(value);
    assert line == a + (head + value);
    TrimLeftBlank(a, head + value);
    TrimRightBehind(head, value);
    var trimmed := Trim(line);
    assert trimmed == head + tail && trimmed[..|key|] == key;
    assert trimmed[|key|..] == b + ("=" + tail);
    TrimLeftBlank(b, "=" + tail);
    TrimRightBehind("=", tail);
    TrimRightTwice(value);
    assert ("=" + tail)[1..] == tail;
  }

  /** And only such a line assigns anything. */
  lemma {:induction false} AssignedIsSpelled(line: string, key: string) returns (a: string, b: string, value: string)
    requires Assigned(line, key).Some?
    ensures Spells(line, key, a, b, value)
  {
    hide IsSpace, Trim;
    var trimmed := Trim(line);
    var behind := trimmed[|key|..];
    var rest := Trim(behind);
    var z, y;
    a, z := TrimTakesBlanks(line);
    b, y := TrimTakesBlanks(behind);
    value := rest[1..] + y + z;
    assert trimmed == key + behind;
    assert rest == "=" + rest[1..];
    assert line == a + (key + (b + ("=" + rest[1..]) + y)) + z;
  }

  /** What a root line assigns to one of the three keys, read off its spelling. */
  lemma {:induction false} KeyIsSet(line: string, key: string)
    requires key in [BASE_URL, CATALOG, PROVIDER]
    ensures Assigned(line, key).Some? <==> exists a, b, value :: Spells(line, key, a, b, value)
    ensures forall a, b, value :: Spells(line, key, a, b, value) ==> Assigned(line, key) == Some(Trim(value))
  {
    hide Assigned, Spells, IsWord, Trim;
    RootKeysAreWords();
    if Assigned(line, key).Some? {
      var a, b, value := AssignedIsSpelled(line, key);
    }
    forall a, b, value | Spells(line, key, a, b, value)
      ensures Assigned(line, key) == Some(Trim(value))
    {
      SpelledIsAssigned(line, key, a, b, value);
    }
  }

  // ----- The edit of the text ------------------------------------------------

  /** One marker without the other, or the first end marker in front of the first begin marker. */
  predicate Torn(content: string, owner: Owner) {
    || Contains(content, owner.begin) != Contains(content, owner.end)
    || IndexOf(content, owner.end) < IndexOf(content, owner.begin)
  }

  /** Some root line assigns the base URL or the catalog. */
  ghost predicate RootRoutes(text: string) {
    exists i :: 0 <= i < |RootLines(text)| && (SetsBase(RootLines(text)[i]) || SetsCatalog(RootLines(text)[i]))
  }

  /** Line `i` is the first to assign the provider. */
  predicate FirstProvider(lines: seq<string>, i: nat)
    requires i < |lines|
  {
    Assigned(lines[i], PROVIDER).Some? && forall j :: 0 <= j < i ==> Assigned(lines[j], PROVIDER).None?
  }

  /** The first root line to assign the provider names another one than openai. */
  ghost predicate RootNamesOther(text: string) {
    exists i :: 0 <= i < |RootLines(text)| && FirstProvider(RootLines(text), i) && SetsProvider(RootLines(text)[i])
  }

  lemma {:induction false} FirstAssignedIs(lines: seq<string>, key: string) returns (i: nat)
    requires FirstAssigned(lines, key).Some?
    ensures i < |lines| && Assigned(lines[i], key) == FirstAssigned(lines, key)
    ensures forall j :: 0 <= j < i ==> Assigned(lines[j], key).None?
  {
    hide Assigned;
    i := 0;
    if Assigned(lines[0], key).None? {
      var k := FirstAssignedIs(lines[1..], key);
      i := k + 1;
      assert forall j :: 0 < j < i ==> lines[j] == lines[1..][j - 1];
    }
  }

  /** The lookups of the edit, line by line. */
  lemma {:induction false} LookupsByLine(text: string)
    ensures RootRoutes(text) <==> RootKeyExists(text, BASE_URL) || RootKeyExists(text, CATALOG)
    ensures RootNamesOther(text) <==>
              RootString(text, PROVIDER).Some? && RootString(text, PROVIDER).value != "openai"
  {
    hide Assigned, Unquote, RootLines;
    var lines := RootLines(text);
    if RootAssignment(text, PROVIDER).Some? {
      var i := FirstAssignedIs(lines, PROVIDER);
      assert FirstProvider(lines, i);
      forall k | 0 <= k < |lines| && FirstProvider(lines, k)
        ensures k == i
      {
      }
    }
  }

  /** Each answer of the edit, exactly. */
  lemma {:induction false} EnableAnswers(content: string, ns: Namespace, u: string, c: string)
    ensures var r, cut := PrepareEnable(content, ns, u, c), RemoveManaged(content, ns.own);
            var own := !HasMarker(content, ns.other) && !Torn(content, ns.own);
            && (cut.Ok? <==> !Torn(content, ns.own))
            && (r == Err(ForeignOwner) <==> HasMarker(content, ns.other))
            && (r == Err(IncompleteBlock) <==> !HasMarker(content, ns.other) && Torn(content, ns.own))
            && (r == Err(UnmanagedRouting) <==> own && RootRoutes(cut.value))
            && (r == Err(UnmanagedProvider) <==> own && !RootRoutes(cut.value) && RootNamesOther(cut.value))
            && (r.Ok? <==> own && !RootRoutes(cut.value) && !RootNamesOther(cut.value))
  {
    hide IndexOf, RootAssignment, Unquote, RootRoutes, RootNamesOther, InsertBlock, Block, DropLineEnd;
    if !Torn(content, ns.own) {
      LookupsByLine(RemoveManaged(content, ns.own).value);
    }
  }

  // ----- What is cut out ------------------------------------------------------

  lemma {:induction false} StraddleChars(a: string, b: string, m: string, k: int)
    ensures StraddlesAt(a, b, m, k) ==>
              && (forall j :: 0 <= j < k ==> m[j] == a[|a| - k + j])
              && (forall j :: k <= j < |m| ==> m[j] == b[j - k])
  {
    if StraddlesAt(a, b, m, k) {
      assert forall j :: 0 <= j < k ==> m[j] == m[..k][j];
      assert forall j :: k <= j < |m| ==> m[j] == m[k..][j - k];
    }
  }

  lemma {:induction false} OnlyFirst(m: string, c: char)
    requires m != "" && Lacks(m[1..], c)
    ensures forall j :: 0 < j < |m| ==> m[j] != c
  {
    assert forall j :: 0 < j < |m| ==> m[j] == m[1..][j - 1];
  }

  /** A marker cannot run across the start of another marker. */
  lemma {:induction false} NoStraddle(a: string, b: string, m: string)
    requires m != "" && Lacks(m[1..], '#') && StartsWith(b, '#')
    ensures !Straddles(a, b, m)
  {
    hide Lacks;
    OnlyFirst(m, '#');
    forall k
      ensures !StraddlesAt(a, b, m, k)
    {
      StraddleChars(a, b, m, k);
    }
  }

  /** Behind a text, positions shift by its length. */
  lemma {:induction false} OccursAfter(a: string, b: string, m: string, k: int)
    requires k >= 0
    ensures OccursAt(a + b, m, |a| + k) <==> OccursAt(b, m, k)
  {
    if k + |m| <= |b| {
      assert (a + b)[|a| + k..|a| + k + |m|] == b[k..k + |m|];
    }
  }

  lemma {:induction false} FirstAtSeam(a: string, b: string, m: string)
    requires m != "" && Lacks(m[1..], '#') && StartsWith(b, '#') && !Contains(a, m)
    ensures IndexOf(a + b, m) == if Contains(b, m) then |a| + IndexOf(b, m) else -1
  {
    hide IndexOf, OccursAt, StraddlesAt, Lacks, StartsWith;
    NoStraddle(a, b, m);
    var i, j := IndexOf(a + b, m), IndexOf(b, m);
    if i >= 0 {
      OccursJoined(a, b, m, i);
    }
    if j >= 0 {
      OccursAfter(a, b, m, j);
    }
  }

  /** Where the markers of a block are, whatever stands in it and around it. */
  lemma {:induction false} MarkersOfAnyBlock(front: string, inside: string, behind: string, owner: Owner)
    requires WellMarked(owner) && !HasMarker(front, owner) && !Contains(inside, owner.end)
    ensures var text := front + (owner.begin + (inside + (owner.end + behind)));
            && IndexOf(text, owner.begin) == |front|
            && IndexOf(text, owner.end) == |front| + |owner.begin| + |inside|
  {
    hide IndexOf, Plain;
    var b, e := owner.begin, owner.end;
    var close := e + behind;
    var block := b + (inside + close);
    assert block[0..|b|] == b && OccursAt(block, b, 0);
    assert close[0..|e|] == e && OccursAt(close, e, 0);
    FirstAtSeam(front, block, b);
    FirstAtSeam(inside, close, e);
    EndBehindBegin(owner, inside + close);
    FirstAtSeam(front, block, e);
  }

  /** Removal takes a block whatever stands in it, with one line ending, and nothing else. */
  lemma {:induction false} RemovesAnyBlock(front: string, inside: string, behind: string, owner: Owner)
    requires WellMarked(owner) && !HasMarker(front, owner) && !Contains(inside, owner.end)
    ensures RemoveManaged(front + owner.begin + inside + owner.end + behind, owner) == Ok(front + DropLineEnd(behind))
  {
    hide IndexOf, DropLineEnd, WellMarked, RemoveManaged, HasMarker, Contains;
    MarkersOfAnyBlock(front, inside, behind, owner);
    var block := owner.begin + inside + owner.end;
    assert front + (block + behind) == front + (owner.begin + (inside + (owner.end + behind)));
    assert front + block + behind == front + owner.begin + inside + owner.end + behind;
    RemoveSpan(front, block, behind, owner);
  }

  /** An end marker cannot start inside a begin marker. */
  lemma {:induction false} EndNotInBegin(owner: Owner, rest: string, i: int)
    requires WellMarked(owner) && OccursAt(owner.begin + rest, owner.end, i)
    ensures i >= |owner.begin|
  {
    hide IndexOf, Plain;
    var b, e := owner.begin, owner.end;
    var text := b + rest;
    OccursChars(text, e, i);
    OnlyFirst(b, '#');
    assert text[i] == '#' && text[i + 2] == '<';
    assert text[2] == b[2];
  }

  lemma {:induction false} EndBehindBegin(owner: Owner, rest: string)
    requires WellMarked(owner) && Contains(rest, owner.end)
    ensures IndexOf(owner.begin + rest, owner.end) == |owner.begin| + IndexOf(rest, owner.end)
  {
    hide IndexOf, WellMarked, OccursAt;
    var b, e := owner.begin, owner.end;
    var i, j := IndexOf(b + rest, e), IndexOf(rest, e);
    OccursAfter(b, rest, e, j);
    EndNotInBegin(owner, rest, i);
    OccursAfter(b, rest, e, i - |b|);
  }

  // ----- The two-file transactions ---------------------------------------------

  /** The owner's side profile, if there is one, is safe and reads as the relay's. */
  predicate ProfileFits(node: Node, owner: Owner) {
    ProfileSafe(node) && (node.Regular? ==> ValidProfile(node.text, owner))
  }

  /** The files of a home can be inspected. */
  predicate Inspectable(home: Home, ns: Namespace) {
    && !home.config.Irregular? && !Torn(ReadOptional(home.config).value, ns.own)
    && ProfileFits(home.profile, ns.own) && ProfileSafe(home.foreignProfile)
  }

  /** What the inspection finds, and when it finds anything. */
  lemma {:induction false} InspectionAnswers(home: Home, ns: Namespace)
    ensures InspectRouting(home, ns).Ok? <==> Inspectable(home, ns)
    ensures Inspectable(home, ns) ==>
              var i, content := InspectRouting(home, ns).value, ReadOptional(home.config).value;
              && RemoveManaged(content, ns.own).Ok?
              && var bare := RemoveManaged(content, ns.own).value;
                 && (i.managedRoot <==> HasMarker(content, ns.own))
                 && (i.interactiveProfileExists <==> home.profile.Regular?)
                 && (i.interactiveProfileManaged <==> home.profile.Regular?)
                 && (i.foreignManagedRoot <==> HasMarker(bare, ns.other))
                 && (i.foreignInteractiveProfile <==> home.foreignProfile.Regular?)
                 && (i.unmanagedOpenAIBaseURL || i.unmanagedModelCatalog <==> RootRoutes(bare))
                 && (i.unmanagedModelProvider <==> RootNamesOther(bare))
  {
    hide IndexOf, RootAssignment, Unquote, RootRoutes, RootNamesOther, DropLineEnd, ValidProfile, Normalise;
    if Inspectable(home, ns) {
      LookupsByLine(RemoveManaged(ReadOptional(home.config).value, ns.own).value);
    }
  }

  /**
   Enabling is accepted exactly when the inspection succeeds and finds neither another owner nor
   unmanaged routing, and the other owner has no marker inside the block either.
   */
  lemma {:induction false} EnableIsAccepted(home: Home, ns: Namespace, g: string, i: string, c: string)
    ensures EnabledHome(home, ns, g, i, c).Ok? <==>
              && InspectRouting(home, ns).Ok? && !ForeignOrUnmanaged(InspectRouting(home, ns).value)
              && !HasMarker(ReadOptional(home.config).value, ns.other)
  {
    hide HasMarker, Torn, RemoveManaged, PrepareEnable, RootRoutes, RootNamesOther, ValidProfile, Normalise,
      InspectRouting, RenderProfile;
    if Inspectable(home, ns) {
      EnableAnswers(ReadOptional(home.config).value, ns, g, c);
    }
    InspectionAnswers(home, ns);
  }

  /** Every home that validates as native can be enabled, with any values. */
  lemma {:induction false} NativeCanEnable(home: Home, ns: Namespace, g: string, i: string, c: string)
    requires ValidateNative(home, ns)
    ensures EnabledHome(home, ns, g, i, c).Ok?
  {
    hide IndexOf, InspectRoot, ValidProfile, EnabledHome, Normalise;
    EnableIsAccepted(home, ns, g, i, c);
    InspectionAnswers(home, ns);
  }

  /** The other owner's marker runs neither into nor out of a block. */
  lemma {:induction false} BlockSeams(p: string, s: string, ns: Namespace, g: string, c: string, m: string)
    requires WellFormed(ns) && Distinct(ns.other, ns.own) && (m == ns.other.begin || m == ns.other.end)
    ensures var block := Join(Block(ns.own, g, c));
            !Straddles(p, block, m) && !Straddles(block, s, m) && !Straddles(p + block, s, m)
  {
    hide IndexOf, Join, Assignment, Plain;
    var block := Join(Block(ns.own, g, c));
    BlockText(ns.own, g, c);
    MarkerChars(m, ns);
    assert StartsWith(block, '#');
    NoStraddle(p, block, m);
    var front := ns.own.begin + "\n" + Assignment(BASE_URL, g) + "\n" + Assignment(CATALOG, c);
    assert block == front + "\n" + ns.own.end;
    NoMarkerAcrossEnd(front, s, ns.own, m);
    NoMarkerAcrossEnd(p + front, s, ns.own, m);
    assert p + block == p + front + "\n" + ns.own.end;
  }

  lemma {:induction false} NoMarkerAcrossEnd(front: string, s: string, owner: Owner, m: string)
    requires WellMarked(owner) && !Contains(m, owner.end)
    requires m != "" && m[0] == '#' && '\n' !in m
    ensures !Straddles(front + "\n" + owner.end, s, m)
  {
    hide IndexOf, Plain, Lacks;
    var e := owner.end;
    var a := front + "\n" + e;
    OnlyFirst(e, '#');
    assert a[|a| - |e|..] == e && a[|a| - |e| - 1] == '\n';
    assert !OccursAt(m, e, 0);
    forall k
      ensures !StraddlesAt(a, s, m, k)
    {
      StraddleChars(a, s, m, k);
      assert |e| < k <= |a| ==> a[|a| - k + (k - |e| - 1)] == '\n';
      assert 0 < k <= |e| ==> a[|a| - k] == e[|e| - k];
    }
  }

  /** A dropped line ending takes no marker with it. */
  lemma {:induction false} DropKeepsMarkers(s: string, m: string)
    requires m != "" && '\n' !in m && '\r' !in m
    ensures Contains(DropLineEnd(s), m) <==> Contains(s, m)
  {
    hide IndexOf;
    if "\r\n" <= s {
      assert s == "\r" + "\n" + s[2..];
      ContainsAcross("\r", '\n', s[2..], m);
      OccursChars("\r", m, IndexOf("\r", m));
      assert m[0] in m;
    } else if "\n" <= s {
      assert s == "" + "\n" + s[1..];
      ContainsAcross("", '\n', s[1..], m);
    }
  }

  /** In a text with a well-placed block, the other owner's marker is around the block or in its values. */
  lemma {:induction false} MarkerNearBlock(p: string, s: string, ns: Namespace, g: string, c: string, m: string)
    requires WellFormed(ns) && Distinct(ns.other, ns.own) && (m == ns.other.begin || m == ns.other.end)
    requires !Contains(p + DropLineEnd(s), m)
    ensures Contains(p + Join(Block(ns.own, g, c)) + s, m) <==> Contains(g, m) || Contains(c, m)
  {
    hide IndexOf, Join, Block, Plain, DropLineEnd;
    var block := Join(Block(ns.own, g, c));
    BlockSeams(p, s, ns, g, c, m);
    ContainsJoined(p + block, s, m);
    ContainsJoined(p, block, m);
    MarkerChars(m, ns);
    DropKeepsMarkers(s, m);
    ContainsPart("", p, DropLineEnd(s), m);
    ContainsPart(p, DropLineEnd(s), "", m);
    assert "" + p + DropLineEnd(s) == p + DropLineEnd(s) == p + DropLineEnd(s) + "";
    MarkerInBlock(ns, g, c, m);
  }

  lemma {:induction false} MarkerChars(m: string, ns: Namespace)
    requires WellFormed(ns) && (m == ns.other.begin || m == ns.other.end)
    ensures m != "" && m[0] == '#' && '\n' !in m && '\r' !in m && '"' !in m && '\\' !in m && |m| > 30
  {
    hide Contains;
    assert forall i :: 0 <= i < |m| ==> PlainChar(m[i]);
  }

  lemma {:induction false} MarkerInBlock(ns: Namespace, g: string, c: string, m: string)
    requires WellFormed(ns) && (m == ns.other.begin || m == ns.other.end)
    ensures Contains(Join(Block(ns.own, g, c)), m) <==> Contains(g, m) || Contains(c, m)
  {
    hide IndexOf, Join, Assignment, Plain;
    var block := Block(ns.own, g, c);
    MarkerChars(m, ns);
    ContainsJoin(block, m);
    ContainsAssignment(BASE_URL, g, m);
    ContainsAssignment(CATALOG, c, m);
    assert block[0] == ns.own.begin && block[3] == ns.own.end;
    assert block[1] == Assignment(BASE_URL, g) && block[2] == Assignment(CATALOG, c);
  }

  /** What is cut out of a text is its managed span. */
  lemma {:induction false} SpanParts(content: string, owner: Owner, span: string) returns (p: string, s: string)
    requires ManagedSpan(content, owner) == Some(span)
    ensures content == p + span + s && RemoveManaged(content, owner) == Ok(p + DropLineEnd(s))
  {
    hide IndexOf, DropLineEnd;
    var start, end := IndexOf(content, owner.begin), IndexOf(content, owner.end);
    p, s := content[..start], content[end + |owner.end|..];
  }

  /** A managed home is its block with the text in front and behind, and around it nothing is foreign. */
  lemma {:induction false} ManagedParts(home: Home, ns: Namespace, g: string, i: string, c: string)
      returns (p: string, s: string)
    requires ValidateManaged(home, ns, g, i, c)
    ensures ReadOptional(home.config) == Ok(p + Join(Block(ns.own, g, c)) + s)
    ensures !HasMarker(p + DropLineEnd(s), ns.other)
  {
    hide InspectRouting, RemoveManaged, ManagedSpan, HasMarker, ValidProfile, Normalise, Join, Block, DropLineEnd,
      RenderProfile, RootRoutes, RootNamesOther, Torn;
    InspectionAnswers(home, ns);
    p, s := SpanParts(ReadOptional(home.config).value, ns.own, Join(Block(ns.own, g, c)));
  }

  /** A home that validates as managed can be enabled again exactly when its values hold no foreign marker. */
  lemma {:induction false} ManagedCanEnable(home: Home, ns: Namespace, g: string, i: string, c: string,
                                            g2: string, i2: string, c2: string)
    requires Canonical(ns) && ValidateManaged(home, ns, g, i, c)
    ensures EnabledHome(home, ns, g2, i2, c2).Ok? <==> !HasMarker(g, ns.other) && !HasMarker(c, ns.other)
  {
    hide IndexOf, Contains, InspectRouting, EnabledHome, ReadOptional, Join, Block, DropLineEnd, RenderProfile,
      WellFormed, Distinct, OwnerNamed, ProductionOwner, LocalDevelopmentOwner, ManagedSpan;
    CanonicalIsWellFormed(ns);
    DistinctBothWays(ns);
    EnableIsAccepted(home, ns, g2, i2, c2);
    var p, s := ManagedParts(home, ns, g, i, c);
    MarkerNearBlock(p, s, ns, g, c, ns.other.begin);
    MarkerNearBlock(p, s, ns, g, c, ns.other.end);
  }

  /** An empty home can be enabled, and its text is the empty one. */
  lemma {:induction false} EmptyHome(ns: Namespace)
    requires WellFormed(ns)
    ensures var home := Home(Absent, Absent, Absent);
            EnabledHome(home, ns, "", "", "").Ok? && BareOf(home, ns) == "" && !HasMarker("", ns.own)
  {
    EmptyIsAdmitted(ns);
    hide IndexOf, RootAssignment, Unquote, InsertBlock, Block, RenderProfile, WellMarked, Distinct;
  }

  /** The other owner's begin marker is a value both files carry. */
  lemma {:induction false} MarkerIsCarried(ns: Namespace)
    requires WellFormed(ns) && Distinct(ns.other, ns.own)
    ensures Carried(ns.own, "", "", ns.other.begin) && HasMarker(ns.other.begin, ns.other)
  {
    hide Plain, Normalise;
    MarkerChars(ns.other.begin, ns);
    NormaliseIdentity("");
    assert OccursAt(ns.other.begin, ns.other.begin, 0);
  }

  /** A catalog path that holds the other owner's begin marker: managed, but it cannot be enabled again. */
  lemma {:induction false} ForeignValueExample(ns: Namespace)
    requires Canonical(ns)
    ensures var c := ns.other.begin;
            var enabled := EnabledHome(Home(Absent, Absent, Absent), ns, "", "", c);
            && enabled.Ok? && ValidateManaged(enabled.value, ns, "", "", c)
            && EnabledHome(enabled.value, ns, "", "", c).Err?
  {
    hide IndexOf, Canonical, EnabledHome, ValidateManaged, BareOf, WellFormed, Distinct, Carried, HasMarker;
    var c, home := ns.other.begin, Home(Absent, Absent, Absent);
    CanonicalIsWellFormed(ns);
    DistinctBothWays(ns);
    EmptyHome(ns);
    MarkerIsCarried(ns);
    EnableAnyValues(home, ns, "", "", c);
    EnableThenValidate(home, ns, "", "", c);
    ManagedCanEnable(EnabledHome(home, ns, "", "", c).value, ns, "", "", c, "", "", c);
  }

  lemma {:induction false} DistinctBothWays(ns: Namespace)
    requires Canonical(ns)
    ensures Distinct(ns.other, ns.own)
  {
    hide ProductionOwner, LocalDevelopmentOwner, Distinct, WellMarked;
    CanonicalIsWellFormed(Namespace(ns.other, ns.own));
  }

  /** Disabling is accepted exactly when the inspection succeeds and finds no other owner. */
  lemma {:induction false} DisableIsAccepted(home: Home, ns: Namespace)
    requires WellFormed(ns)
    ensures DisabledHome(home, ns).Ok? <==>
              && InspectRouting(home, ns).Ok?
              && !InspectRouting(home, ns).value.foreignManagedRoot && home.foreignProfile.Absent?
    ensures DisabledHome(home, ns).Ok? ==>
              var after := DisabledHome(home, ns).value;
              after.profile.Absent? && after.foreignProfile == home.foreignProfile && !after.config.Irregular?
  {
    hide IndexOf, InspectRoot, ValidProfile, Normalise, RemoveManaged, WellMarked, Distinct;
    InspectionAnswers(home, ns);
    if home.config.Regular? {
      RemovalCommutes(home.config.text, ns.own);
    }
  }
}
