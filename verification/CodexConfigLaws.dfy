/**
 The laws of the Codex configuration editor: escaping is injective and
 self-delimiting, enabling reads back, frames the rest of the text, and is undone
 by removal, over single calls and over whole runs of enables.
 */
module CodexConfigLaws {

  import opened CodexConfig
  import opened Text
  import opened Wrappers

  /** The two compiled-in namespaces have the marker spelling the editor relies on. */
  lemma {:induction false} CanonicalIsWellFormed(ns: Namespace)
    requires Canonical(ns)
    ensures WellFormed(ns)
  {
    hide WellMarked, Distinct;
    ProductionWellMarked();
    LocalDevelopmentWellMarked();
    MarkersApart();
  }

  lemma {:induction false} ProductionWellMarked()
    ensures WellMarked(ProductionOwner())
  {
    hide WellMarked;
    NamedWellMarked("production", "opencodex-relay");
  }

  lemma {:induction false} LocalDevelopmentWellMarked()
    ensures WellMarked(LocalDevelopmentOwner())
  {
    hide WellMarked;
    NamedWellMarked("local_development", "opencodex-relay-dev");
  }

  predicate PlainName(d: string) {
    Plain(d) && Lacks(d, '<') && Lacks(d, '>') && Lacks(d, '#') && |d| > 10
  }

  lemma {:induction false} NamedWellMarked(id: string, d: string)
    requires PlainName(d)
    ensures WellMarked(OwnerNamed(id, d))
  {
    BeginSpelling(d);
    EndSpelling(d);
    ProfileSpelling(d);
  }

  lemma {:induction false} BeginSpelling(d: string)
    requires PlainName(d)
    ensures var m := "# >>> " + d + " managed begin >>>"; Plain(m) && Lacks(m[1..], '#') && m[2] == '>' && Lacks(m, '<')
  {}

  lemma {:induction false} EndSpelling(d: string)
    requires PlainName(d)
    ensures var m := "# <<< " + d + " managed end <<<"; Plain(m) && Lacks(m[1..], '#') && m[2] == '<' && Lacks(m, '>')
  {}

  lemma {:induction false} ProfileSpelling(d: string)
    requires PlainName(d)
    ensures Plain("# " + d + "-managed-interactive-profile-v1")
  {}

  lemma {:induction false} MarkersApart()
    ensures Distinct(ProductionOwner(), LocalDevelopmentOwner())
    ensures Distinct(LocalDevelopmentOwner(), ProductionOwner())
  {
    ProductionWellMarked();
    LocalDevelopmentWellMarked();
    var p, d := ProductionOwner(), LocalDevelopmentOwner();
    assert p.begin[21] == ' ' && p.end[21] == ' ' && d.begin[21] == '-' && d.end[21] == '-';
    SpelledApart(p, d);
    SpelledApart(d, p);
  }

  lemma {:induction false} SpelledApart(a: Owner, b: Owner)
    requires WellMarked(a) && WellMarked(b)
    requires a.begin[21] != b.begin[21] && a.end[21] != b.end[21]
    ensures Distinct(a, b)
  {
    hide IndexOf;
    MissingChar(a.begin, b.end, '<');
    MissingChar(a.end, b.begin, '>');
    DiffersAt(a.begin, b.begin, 21);
    DiffersAt(a.end, b.end, 21);
  }

  /** A text whose only '#' is in front contains another such text only at the front. */
  lemma {:induction false} DiffersAt(s: string, m: string, i: nat)
    requires s != "" && m != "" && s[0] == m[0] == '#' && Lacks(s[1..], '#')
    requires i < |s| && i < |m| && s[i] != m[i]
    ensures !Contains(s, m)
  {
    hide IndexOf;
    forall k: int ensures !OccursAt(s, m, k) {
      if 0 <= k && k + |m| <= |s| {
        assert s[k..k + |m|][0] == s[k];
        assert k > 0 ==> s[k] == s[1..][k - 1];
        assert k == 0 ==> s[k..k + |m|][i] == s[i];
      }
    }
  }

  /** Text without one of the characters of `m` does not contain `m`. */
  lemma {:induction false} MissingChar(s: string, m: string, c: char)
    requires c in m && c !in s
    ensures !Contains(s, m)
  {
    hide IndexOf;
    var j :| 0 <= j < |m| && m[j] == c;
    forall k: int ensures !OccursAt(s, m, k) {
      if 0 <= k && k + |m| <= |s| {
        assert s[k..k + |m|][j] == s[k + j];
      }
    }
  }

  // ----- Escaping ----------------------------------------------------------

  lemma {:induction false} EscapeHead(a: string, x: string)
    ensures var s := EscapeToml(a) + "\"" + x;
            && s != "" && (s[0] == '"' <==> a == "")
            && (a == "" ==> s == "\"" + x)
            && (a != "" ==> s == EscapeChar(a[0]) + (EscapeToml(a[1..]) + "\"" + x))
  {
    if a != "" {
      var c, t := EscapeChar(a[0]), EscapeToml(a[1..]);
      assert EscapeToml(a) + "\"" + x == c + (t + "\"" + x);
      assert (c + (t + "\"" + x))[0] == c[0];
    }
  }

  lemma {:induction false} EscapeCharDelimits(c: char, d: char, p: string, q: string)
    requires EscapeChar(c) + p == EscapeChar(d) + q
    ensures c == d && p == q
  {
    var s, t := EscapeChar(c) + p, EscapeChar(d) + q;
    assert s[0] == EscapeChar(c)[0] && t[0] == EscapeChar(d)[0];
    assert s[0] == '\\' ==> s[1] == c && t[1] == d;
    assert s[|EscapeChar(c)|..] == p && t[|EscapeChar(d)|..] == q;
  }

  /** An escaped value is self-delimiting: the first quote after it that is not part of it ends it. */
  lemma {:induction false} EscapeDelimits(a: string, b: string, x: string, y: string)
    requires EscapeToml(a) + "\"" + x == EscapeToml(b) + "\"" + y
    ensures a == b && x == y
  {
    hide EscapeChar;
    EscapeHead(a, x);
    EscapeHead(b, y);
    if a == "" {
      Cancel("\"", x, y);
    } else {
      EscapeCharDelimits(a[0], b[0], EscapeToml(a[1..]) + "\"" + x, EscapeToml(b[1..]) + "\"" + y);
      EscapeDelimits(a[1..], b[1..], x, y);
      assert a == [a[0]] + a[1..] && b == [b[0]] + b[1..];
    }
  }

  /** `escapeTOML` is injective. */
  lemma {:induction false} EscapeInjective(a: string, b: string)
    requires EscapeToml(a) == EscapeToml(b)
    ensures a == b
  {
    EscapeDelimits(a, b, "", "");
  }

  /** Two blocks with the same text bind the same listener and the same catalog. */
  lemma {:induction false} BlockInjective(owner: Owner, u1: string, c1: string, u2: string, c2: string)
    requires Join(Block(owner, u1, c1)) == Join(Block(owner, u2, c2))
    ensures u1 == u2 && c1 == c2
  {
    hide Join, EscapeToml;
    var head := owner.begin + "\n" + BASE_URL + " = \"";
    var mid := "\n" + CATALOG + " = \"";
    var e := "\n" + owner.end;
    var r1 := mid + (EscapeToml(c1) + "\"" + e);
    var r2 := mid + (EscapeToml(c2) + "\"" + e);
    BlockParts(owner, u1, c1);
    BlockParts(owner, u2, c2);
    Cancel(head, EscapeToml(u1) + "\"" + r1, EscapeToml(u2) + "\"" + r2);
    EscapeDelimits(u1, u2, r1, r2);
    Cancel(mid, EscapeToml(c1) + "\"" + e, EscapeToml(c2) + "\"" + e);
    EscapeDelimits(c1, c2, e, e);
  }

  lemma {:induction false} BlockParts(owner: Owner, u: string, c: string)
    ensures Join(Block(owner, u, c)) ==
            (owner.begin + "\n" + BASE_URL + " = \"")
            + (EscapeToml(u) + "\"" + ("\n" + CATALOG + " = \"" + (EscapeToml(c) + "\"" + ("\n" + owner.end))))
  {
    hide Join, EscapeToml;
    BlockText(owner, u, c);
  }

  lemma {:induction false} Cancel(p: string, a: string, b: string)
    requires p + a == p + b
    ensures a == b
  {
    assert a == (p + a)[|p|..] == (p + b)[|p|..] == b;
  }

  lemma {:induction false} BlockText(owner: Owner, u: string, c: string)
    ensures Join(Block(owner, u, c)) ==
            owner.begin + "\n" + Assignment(BASE_URL, u) + "\n" + Assignment(CATALOG, c) + "\n" + owner.end
  {
    var b := Block(owner, u, c);
    assert b[1..][1..] == b[2..];
    assert b[2..][1..] == b[3..];
    assert Join(b[3..]) == owner.end;
    assert Join(b[2..]) == b[2] + "\n" + Join(b[3..]);
    assert Join(b[1..]) == b[1] + "\n" + Join(b[2..]);
  }

  // ----- Where the markers are --------------------------------------------

  /** Escaping neither hides nor creates a text that holds no backslash and no quote. */
  lemma {:induction false} ContainsEscaped(value: string, m: string)
    requires m != "" && '\\' !in m && '"' !in m
    ensures Contains(EscapeToml(value), m) <==> Contains(value, m)
    decreases |value|
  {
    hide IndexOf, EscapeToml;
    var k := FirstSpecial(value);
    if k == |value| {
      EscapePlain(value);
    } else {
      var a, c, b := value[..k], value[k], value[k + 1..];
      EscapeAt(a, c, b);
      assert value == a + [c] + b;
      ContainsEscaped(b, m);
      ContainsAcross(a, c, b, m);
      ContainsAcross(a, '\\', [c] + EscapeToml(b), m);
      ContainsAcross("", c, EscapeToml(b), m);
      assert "" + [c] + EscapeToml(b) == [c] + EscapeToml(b);
    }
  }

  lemma {:induction false} EscapeAt(a: string, c: char, b: string)
    requires forall i :: 0 <= i < |a| ==> a[i] != '\\' && a[i] != '"'
    requires c == '\\' || c == '"'
    ensures EscapeToml(a + [c] + b) == a + "\\" + ([c] + EscapeToml(b))
  {
    hide EscapeToml;
    assert a + [c] + b == a + ([c] + b);
    EscapeAppend(a, [c] + b);
    EscapePlain(a);
    EscapeStep(c, b);
    var e := EscapeToml(b);
    assert EscapeChar(c) == "\\" + [c];
    assert a + (("\\" + [c]) + e) == a + "\\" + ([c] + e);
  }

  lemma {:induction false} EscapeStep(c: char, w: string)
    ensures EscapeToml([c] + w) == EscapeChar(c) + EscapeToml(w)
  {
    assert ([c] + w)[1..] == w;
  }

  function FirstSpecial(value: string): (k: nat)
    ensures k <= |value|
    ensures forall i :: 0 <= i < k ==> value[i] != '\\' && value[i] != '"'
    ensures k < |value| ==> value[k] == '\\' || value[k] == '"'
  {
    if value == "" || value[0] == '\\' || value[0] == '"' then 0 else 1 + FirstSpecial(value[1..])
  }

  lemma {:induction false} EscapePlain(value: string)
    requires forall i :: 0 <= i < |value| ==> value[i] != '\\' && value[i] != '"'
    ensures EscapeToml(value) == value
  {
    if value != "" {
      EscapePlain(value[1..]);
    }
  }

  lemma {:induction false} EscapeAppend(a: string, b: string)
    ensures EscapeToml(a + b) == EscapeToml(a) + EscapeToml(b)
  {
    if a == "" {
      assert a + b == b;
    } else {
      assert (a + b)[1..] == a[1..] + b;
      EscapeAppend(a[1..], b);
    }
  }

  /** A marker is in a rendered assignment exactly when it is in the value. */
  lemma {:induction false} ContainsAssignment(key: string, value: string, m: string)
    requires |m| > 30 && '\\' !in m && '"' !in m && |key| < 20
    ensures Contains(Assignment(key, value), m) <==> Contains(value, m)
  {
    var e := EscapeToml(value);
    assert Assignment(key, value) == (key + " = ") + "\"" + (e + "\"" + "");
    ContainsAcross(key + " = ", '"', e + "\"" + "", m);
    ContainsAcross(e, '"', "", m);
    ContainsEscaped(value, m);
  }

  /** Searching for a one-line text behind complete lines that do not contain it. */
  lemma {:induction false} SearchBehind(p: string, b: string, m: string)
    requires m != "" && '\n' !in m
    requires p == "" || p[|p| - 1] == '\n'
    requires !Contains(p, m)
    ensures IndexOf(p + b, m) == if IndexOf(b, m) < 0 then -1 else |p| + IndexOf(b, m)
  {
    hide IndexOf;
    if p == "" {
      assert p + b == b;
    } else {
      var a := p[..|p| - 1];
      assert p + b == a + "\n" + b;
      assert p == "" + a + "\n";
      IndexOfAcross(a, '\n', b, m);
      ContainsPart("", a, "\n", m);
    }
  }

  // ----- The shape of an enabled text --------------------------------------

  predicate HasHeader(content: string) {
    FirstHeader(Split(content)) < |Split(content)|
  }

  /** The complete lines in front of the block. */
  function Before(content: string): string {
    var lines := Split(content);
    var k := FirstHeader(lines);
    if k == 0 then "" else Join(lines[..k]) + "\n"
  }

  /** The lines from the first table header on. */
  function Tables(content: string): string {
    var lines := Split(content);
    var k := FirstHeader(lines);
    if k == |lines| then "" else Join(lines[k..])
  }

  /** What follows the block in an enabled text. */
  function Behind(content: string): string {
    if HasHeader(content) then "\n" + Tables(content) else ""
  }

  /** An enabled text is the root lines, the block, and the tables behind a newline. */
  lemma {:induction false} InsertedShape(content: string, block: seq<string>)
    requires |block| == 4
    ensures InsertBlock(content, block) == Before(content) + Join(block) + Behind(content)
  {
    hide Split, FirstHeader, Join;
    var lines := Split(content);
    var k := FirstHeader(lines);
    if k > 0 {
      JoinAppend(lines[..k], block);
    } else {
      assert lines[..k] + block == block;
    }
    if k < |lines| {
      JoinAppend(lines[..k] + block, lines[k..]);
    } else {
      assert lines[..k] + block + lines[k..] == lines[..k] + block;
    }
  }

  /** The original is the same text without the block, up to the newline a text without tables gains. */
  lemma {:induction false} OriginalShape(content: string)
    ensures Before(content) + Tables(content) == Restored(content)
    ensures Before(content) == "" || Before(content)[|Before(content)| - 1] == '\n'
  {
    hide Split, FirstHeader, Join;
    var lines := Split(content);
    var k := FirstHeader(lines);
    assert lines == lines[..k] + lines[k..];
    assert lines[..|lines|] == lines && lines[0..] == lines;
    if 0 < k < |lines| {
      JoinAppend(lines[..k], lines[k..]);
    }
  }

  /** No part of a marker-free text contains a marker. */
  lemma {:induction false} PartsMarkerFree(content: string, m: string)
    requires !Contains(content, m) && m != "" && '\n' !in m
    ensures !Contains(Restored(content), m)
    ensures !Contains(Before(content), m) && !Contains(Tables(content), m)
  {
    hide IndexOf, Before, Tables, HasHeader;
    var b, t := Before(content), Tables(content);
    OriginalShape(content);
    assert content + "\n" + "" == content + "\n";
    ContainsAcross(content, '\n', "", m);
    assert "" + b + t == b + t && b + t + "" == b + t;
    ContainsPart("", b, t, m);
    ContainsPart(b, t, "", m);
  }

  // ----- Enabling is undone by removal -------------------------------------

  /** What removal gives back after an enable. */
  function Restored(bare: string): string {
    if HasHeader(bare) then bare else bare + "\n"
  }

  predicate EndMarkerFree(owner: Owner, baseUrl: string, catalog: string) {
    !Contains(baseUrl, owner.end) && !Contains(catalog, owner.end)
  }

  lemma {:induction false} BlockLinesClear(owner: Owner, u: string, c: string)
    requires WellMarked(owner)
    ensures !Contains(owner.begin, owner.end)
    ensures Contains(Assignment(BASE_URL, u), owner.end) <==> Contains(u, owner.end)
    ensures Contains(Assignment(CATALOG, c), owner.end) <==> Contains(c, owner.end)
  {
    hide IndexOf;
    MissingChar(owner.begin, owner.end, '<');
    ContainsAssignment(BASE_URL, u, owner.end);
    ContainsAssignment(CATALOG, c, owner.end);
  }

  /** In `block + s`, the begin marker is at the front and the end marker closes the block. */
  lemma {:induction false} MarkersOfBlock(owner: Owner, u: string, c: string, s: string)
    requires WellMarked(owner) && EndMarkerFree(owner, u, c)
    ensures var text := Join(Block(owner, u, c)) + s;
            && IndexOf(text, owner.begin) == 0
            && IndexOf(text, owner.end) == |Join(Block(owner, u, c))| - |owner.end|
    ensures |Join(Block(owner, u, c))| >= |owner.end|
  {
    hide IndexOf, Join, Assignment;
    var b, e := owner.begin, owner.end;
    var l1, l2 := Assignment(BASE_URL, u), Assignment(CATALOG, c);
    BlockText(owner, u, c);
    BlockLinesClear(owner, u, c);
    var text := Join(Block(owner, u, c)) + s;
    var t3 := e + s;
    var t2 := l2 + "\n" + t3;
    var t1 := l1 + "\n" + t2;
    assert text == b + "\n" + t1;
    assert OccursAt(text, b, 0) by { assert text[..|b|] == b; }
    assert OccursAt(t3, e, 0) by { assert t3[..|e|] == e; }
    IndexOfAcross(l2, '\n', t3, e);
    IndexOfAcross(l1, '\n', t2, e);
    IndexOfAcross(b, '\n', t1, e);
  }

  lemma {:induction false} RemoveInserted(bare: string, owner: Owner, u: string, c: string)
    requires WellMarked(owner) && !HasMarker(bare, owner) && EndMarkerFree(owner, u, c)
    ensures RemoveManaged(InsertBlock(bare, Block(owner, u, c)), owner) == Ok(Restored(bare))
  {
    hide IndexOf, Join, InsertBlock, Block, Before, Tables, HasHeader, Restored;
    var block := Join(Block(owner, u, c));
    var p, s := Before(bare), Behind(bare);
    InsertedShape(bare, Block(owner, u, c));
    OriginalShape(bare);
    PartsMarkerFree(bare, owner.begin);
    PartsMarkerFree(bare, owner.end);
    MarkersOfBlock(owner, u, c, s);
    SearchBehind(p, block + s, owner.begin);
    SearchBehind(p, block + s, owner.end);
    BehindDropped(bare);
    RemoveSpan(p, block, s, owner);
  }

  lemma {:induction false} BehindDropped(bare: string)
    ensures DropLineEnd(Behind(bare)) == Tables(bare)
  {
    hide Split, FirstHeader, Join;
    if HasHeader(bare) {
      assert ("\n" + Tables(bare))[1..] == Tables(bare);
    }
  }

  /** Removal, once it is known where the markers are. */
  lemma {:induction false} RemoveSpan(p: string, block: string, s: string, owner: Owner)
    requires |block| >= |owner.end|
    requires IndexOf(p + (block + s), owner.begin) == |p|
    requires IndexOf(p + (block + s), owner.end) == |p| + |block| - |owner.end|
    ensures RemoveManaged(p + block + s, owner) == Ok(p + DropLineEnd(s))
  {
    hide IndexOf, DropLineEnd;
    var text := p + block + s;
    assert text == p + (block + s);
    assert text[..|p|] == p;
    assert text[|p| + |block|..] == s;
  }

  /** When a value holds the end marker, the block's own end marker survives the removal. */
  lemma {:induction false} RemovalLeavesMarker(bare: string, owner: Owner, u: string, c: string)
    requires WellMarked(owner) && !HasMarker(bare, owner) && !EndMarkerFree(owner, u, c)
    ensures var r := RemoveManaged(InsertBlock(bare, Block(owner, u, c)), owner);
            r.Ok? ==> Contains(r.value, owner.end)
  {
    hide IndexOf, Join, InsertBlock, Block, Before, Tables, HasHeader, Restored, Assignment, Behind, RemoveManaged;
    InsertedShape(bare, Block(owner, u, c));
    BlockText(owner, u, c);
    BlockLinesClear(owner, u, c);
    SurvivingEnd(Before(bare), Assignment(BASE_URL, u), Assignment(CATALOG, c), Behind(bare), owner);
  }

  lemma {:induction false} SurvivingEnd(p: string, l1: string, l2: string, s: string, owner: Owner)
    requires WellMarked(owner)
    requires Contains(l1, owner.end) || Contains(l2, owner.end)
    ensures var r := RemoveManaged(p + (owner.begin + "\n" + l1 + "\n" + l2 + "\n" + owner.end) + s, owner);
            r.Ok? ==> Contains(r.value, owner.end)
  {
    hide IndexOf, RemoveManaged, WellMarked;
    var b, e := owner.begin, owner.end;
    assert e != "" && '\n' !in e by { EndIsOneLine(owner); }
    // Everything in front of the line that holds the block's end marker.
    var front := p + b + "\n" + l1 + "\n" + l2;
    ContainsPart(p + b + "\n", l1, "\n" + l2, e);
    assert p + b + "\n" + l1 + ("\n" + l2) == front;
    ContainsPart(p + b + "\n" + l1 + "\n", l2, "", e);
    assert p + b + "\n" + l1 + "\n" + l2 + "" == front;
    var text := front + "\n" + (e + s);
    assert text == p + (b + "\n" + l1 + "\n" + l2 + "\n" + e) + s;
    assert text[|p|..|p| + |b|] == b;
    FirstEndInFront(front, owner, s, |p|);
  }

  lemma {:induction false} EndIsOneLine(owner: Owner)
    requires WellMarked(owner)
    ensures owner.end != "" && '\n' !in owner.end
  {
    assert forall i :: 0 <= i < |owner.end| ==> PlainChar(owner.end[i]);
  }

  lemma {:induction false} FirstEndInFront(front: string, owner: Owner, s: string, k: nat)
    requires owner.end != "" && '\n' !in owner.end && Contains(front, owner.end)
    requires OccursAt(front + "\n" + (owner.end + s), owner.begin, k)
    ensures var r := RemoveManaged(front + "\n" + (owner.end + s), owner);
            r.Ok? ==> Contains(r.value, owner.end)
  {
    hide IndexOf, DropLineEnd;
    var e := owner.end;
    var text := front + "\n" + (e + s);
    IndexOfAcross(front, '\n', e + s, e);
    var i := IndexOf(front, e);
    var rest := front[i + |e|..] + "\n" + (e + s);
    assert text[i + |e|..] == rest;
    DropKeepsLastLine(front[i + |e|..], e, s);
    var start := IndexOf(text, owner.begin);
    if start <= i {
      assert text[..start] + DropLineEnd(rest) + "" == text[..start] + DropLineEnd(rest);
      ContainsPart(text[..start], DropLineEnd(rest), "", e);
    }
  }

  lemma {:induction false} DropKeepsLastLine(x: string, e: string, s: string)
    requires e != "" && '\n' !in e
    ensures Contains(DropLineEnd(x + "\n" + (e + s)), e)
  {
    hide IndexOf;
    var rest := x + "\n" + (e + s);
    assert rest[0] == (if x == "" then '\n' else x[0]);
    var gone := if "\r\n" <= rest then 2 else if "\n" <= rest then 1 else 0;
    assert DropLineEnd(rest) == rest[gone..];
    assert gone <= |x| + 1 by {
      if gone == 2 && x == "" { assert false; }
    }
    var p := (x + "\n")[gone..];
    assert rest[gone..] == p + e + s;
    assert OccursAt(e, e, 0);
    ContainsPart(p, e, s, e);
  }

  /**
   The exact round-trip law. For a text whose own block, if any, is the only one,
   removing the block after an enable gives back the text without the block, plus one
   newline when it has no table header, if and only if neither value contains the end
   marker.
   */
  lemma {:induction false} RemoveUndoesEnable(content: string, ns: Namespace, u: string, c: string)
    requires WellFormed(ns) && PrepareEnable(content, ns, u, c).Ok?
    requires !HasMarker(Admit(content, ns).value, ns.own)
    ensures var enabled := PrepareEnable(content, ns, u, c).value;
            RemoveManaged(enabled, ns.own) == Ok(Restored(Admit(content, ns).value))
            <==> EndMarkerFree(ns.own, u, c)
  {
    hide IndexOf, InsertBlock, Block, HasHeader, RemoveManaged, Admit, Restored;
    var bare := Admit(content, ns).value;
    PartsMarkerFree(bare, ns.own.end);
    if EndMarkerFree(ns.own, u, c) {
      RemoveInserted(bare, ns.own, u, c);
    } else {
      RemovalLeavesMarker(bare, ns.own, u, c);
    }
  }

  /** The empty configuration is admitted. */
  lemma {:induction false} EmptyIsAdmitted(ns: Namespace)
    requires WellFormed(ns)
    ensures Admit("", ns) == Ok("") && !HasMarker("", ns.own)
  {
    hide Assigned, IsHeader, Unquote, Distinct;
    SplitOneLine("");
    NothingAssigned(BASE_URL);
    NothingAssigned(CATALOG);
    NothingAssigned(PROVIDER);
  }

  lemma {:induction false} NothingAssigned(key: string)
    requires key != ""
    ensures RootAssignment("", key) == None
  {
    SplitOneLine("");
    assert Trim("") == "";
  }

  /** With the end marker itself as catalog path, removing the block does not give the file back. */
  lemma {:induction false} EndMarkerExample()
    ensures var ns := Namespace(ProductionOwner(), LocalDevelopmentOwner());
            var enabled := PrepareEnable("", ns, "", ns.own.end);
            enabled.Ok? && Admit("", ns) == Ok("") && RemoveManaged(enabled.value, ns.own) != Ok(Restored(""))
  {
    var ns := Namespace(ProductionOwner(), LocalDevelopmentOwner());
    CanonicalIsWellFormed(ns);
    hide IndexOf, InsertBlock, Block, HasHeader, RemoveManaged, Admit, Restored, ProductionOwner, LocalDevelopmentOwner,
      WellMarked;
    EmptyIsAdmitted(ns);
    var e := ns.own.end;
    assert OccursAt(e, e, 0);
    RemoveUndoesEnable("", ns, "", e);
  }

  // ----- Runs of enables ---------------------------------------------------

  /** Values a run of enables can write and later find its way back from. */
  predicate Replaceable(ns: Namespace, v: (string, string)) {
    EndMarkerFree(ns.own, v.0, v.1) && !HasMarker(v.0, ns.other) && !HasMarker(v.1, ns.other)
  }

  /** Enable once for each pair of values, each time on the text the enable before it wrote. */
  function EnableRun(content: string, ns: Namespace, values: seq<(string, string)>): Result<string, EditError> {
    if values == [] then Ok(content)
    else
      match EnableRun(content, ns, values[..|values| - 1])
      case Err(e) => Err(e)
      case Ok(text) => PrepareEnable(text, ns, values[|values| - 1].0, values[|values| - 1].1)
  }

  function Newlines(n: nat): string {
    if n == 0 then "" else Newlines(n - 1) + "\n"
  }

  /** A text after `n` rounds of enable and removal. */
  function Grown(bare: string, n: nat): string {
    if HasHeader(bare) then bare else bare + Newlines(n)
  }

  lemma {:induction false} SplitAcross(a: string, b: string)
    ensures Split(a + "\n" + b) == Split(a) + Split(b)
  {
    JoinAppend(Split(a), Split(b));
    SplitOfJoin(Split(a) + Split(b));
  }

  lemma {:induction false} SplitOneLine(a: string)
    requires '\n' !in a
    ensures Split(a) == [a]
  {
    SplitOfJoin([a]);
  }

  lemma {:induction false} FirstHeaderAppend(a: seq<string>, b: seq<string>)
    ensures FirstHeader(a + b) == if FirstHeader(a) < |a| then FirstHeader(a) else |a| + FirstHeader(b)
  {
    hide IsHeader;
    if a == [] {
      assert a + b == b;
    } else {
      assert (a + b)[1..] == a[1..] + b;
      FirstHeaderAppend(a[1..], b);
    }
  }

  lemma {:induction false} FirstAssignedAppend(a: seq<string>, b: seq<string>, key: string)
    ensures FirstAssigned(a + b, key) ==
            if FirstAssigned(a, key).Some? then FirstAssigned(a, key) else FirstAssigned(b, key)
  {
    hide Assigned;
    if a == [] {
      assert a + b == b;
    } else {
      assert (a + b)[1..] == a[1..] + b;
      FirstAssignedAppend(a[1..], b, key);
    }
  }

  /** A final newline behind root lines changes nothing that is read from them. */
  lemma {:induction false} FinalNewlineReads(bare: string, key: string)
    requires !HasHeader(bare) && key != ""
    ensures !HasHeader(bare + "\n")
    ensures RootAssignment(bare + "\n", key) == RootAssignment(bare, key)
  {
    hide Split, FirstHeader, FirstAssigned;
    assert bare + "\n" + "" == bare + "\n";
    SplitAcross(bare, "");
    SplitOneLine("");
    var lines := Split(bare);
    FirstHeaderAppend(lines, [""]);
    FirstAssignedAppend(lines, [""], key);
    EmptyLine(key);
    assert lines[..|lines|] == lines && (lines + [""])[..|lines| + 1] == lines + [""];
  }

  /** An empty line is no header and assigns nothing. */
  lemma {:induction false} EmptyLine(key: string)
    requires key != ""
    ensures FirstHeader([""]) == 1 && FirstAssigned([""], key) == None
    ensures Assigned("", key).None? && !IsHeader("")
  {
    assert Trim("") == "";
    assert [""][1..] == [];
  }

  /** So the text a removal gives back is admitted exactly like the text before the enable. */
  lemma {:induction false} RestoredIsAdmitted(bare: string, ns: Namespace)
    requires WellFormed(ns) && Admit(bare, ns) == Ok(bare) && !HasMarker(bare, ns.own)
    ensures Admit(Restored(bare), ns) == Ok(Restored(bare)) && !HasMarker(Restored(bare), ns.own)
  {
    hide IndexOf, HasHeader, RootAssignment, Unquote;
    PartsMarkerFree(bare, ns.own.begin);
    PartsMarkerFree(bare, ns.own.end);
    PartsMarkerFree(bare, ns.other.begin);
    PartsMarkerFree(bare, ns.other.end);
    if !HasHeader(bare) {
      FinalNewlineReads(bare, BASE_URL);
      FinalNewlineReads(bare, CATALOG);
      FinalNewlineReads(bare, PROVIDER);
    }
  }

  /** Inserting a block brings in another owner's marker only through the values. */
  lemma {:induction false} InsertedForeignFree(bare: string, ns: Namespace, v: (string, string), m: string)
    requires WellFormed(ns) && (m == ns.other.begin || m == ns.other.end)
    requires !Contains(bare, m) && !Contains(v.0, m) && !Contains(v.1, m)
    ensures !Contains(InsertBlock(bare, Block(ns.own, v.0, v.1)), m)
  {
    hide IndexOf, Split, Join, FirstHeader, Assignment;
    var lines := Split(bare);
    var k := FirstHeader(lines);
    var block := Block(ns.own, v.0, v.1);
    ContainsJoin(lines, m);
    ContainsAssignment(BASE_URL, v.0, m);
    ContainsAssignment(CATALOG, v.1, m);
    var all := lines[..k] + block + lines[k..];
    ContainsJoin(all, m);
    forall i | 0 <= i < |all| ensures !Contains(all[i], m) {
      if i < k {
        assert all[i] == lines[i];
      } else if i < k + 4 {
        assert all[i] == block[i - k];
      } else {
        assert all[i] == lines[i - 4];
      }
    }
  }

  /** Enabling again first gets back to the text of the first enable, up to the newline. */
  lemma {:induction false} AdmitAgain(bare: string, ns: Namespace, v: (string, string))
    requires WellFormed(ns) && Admit(bare, ns) == Ok(bare) && !HasMarker(bare, ns.own) && Replaceable(ns, v)
    ensures Admit(InsertBlock(bare, Block(ns.own, v.0, v.1)), ns) == Ok(Restored(bare))
  {
    hide IndexOf, InsertBlock, Block, RemoveManaged, HasHeader, RootAssignment, RootString;
    InsertedForeignFree(bare, ns, v, ns.other.begin);
    InsertedForeignFree(bare, ns, v, ns.other.end);
    RemoveInserted(bare, ns.own, v.0, v.1);
    RestoredIsAdmitted(bare, ns);
    MarkerFreeRemoval(Restored(bare), ns.own);
  }

  lemma {:induction false} MarkerFreeRemoval(text: string, owner: Owner)
    requires !HasMarker(text, owner)
    ensures RemoveManaged(text, owner) == Ok(text)
  {
    hide IndexOf;
  }

  lemma {:induction false} GrownStep(bare: string, n: nat)
    ensures Restored(Grown(bare, n)) == Grown(bare, n + 1)
    ensures HasHeader(Grown(bare, n)) == HasHeader(bare)
  {
    hide Split, FirstHeader;
    if !HasHeader(bare) {
      if n == 0 {
        assert bare + "" == bare;
      } else {
        GrownStep(bare, n - 1);
        assert bare + Newlines(n) == bare + Newlines(n - 1) + "\n";
        FinalNewlineReads(Grown(bare, n - 1), BASE_URL);
      }
      assert bare + Newlines(n + 1) == bare + Newlines(n) + "\n";
    }
  }

  /**
   Whole runs: whatever values a run of enables writes, the text at the end depends only on
   the last ones. With a table header it is what one enable would have written; without one,
   every enable after the first has left one more newline in front of the block.
   */
  lemma {:induction false} RunOfEnables(bare: string, ns: Namespace, values: seq<(string, string)>)
    requires WellFormed(ns) && Admit(bare, ns) == Ok(bare) && !HasMarker(bare, ns.own)
    requires values != [] && forall i :: 0 <= i < |values| ==> Replaceable(ns, values[i])
    ensures var n, last := |values| - 1, values[|values| - 1];
            && Admit(Grown(bare, n), ns) == Ok(Grown(bare, n)) && !HasMarker(Grown(bare, n), ns.own)
            && EnableRun(bare, ns, values) == Ok(InsertBlock(Grown(bare, n), Block(ns.own, last.0, last.1)))
            && RemoveManaged(EnableRun(bare, ns, values).value, ns.own) == Ok(Grown(bare, n + 1))
    decreases |values|
  {
    hide IndexOf, InsertBlock, Block, RemoveManaged, HasHeader, Admit, HasMarker, EndMarkerFree;
    var n, last := |values| - 1, values[|values| - 1];
    var earlier := values[..n];
    if n == 0 {
      assert bare + "" == bare;
      assert EnableRun(bare, ns, earlier) == Ok(bare);
    } else {
      RunOfEnables(bare, ns, earlier);
      AdmitAgain(Grown(bare, n - 1), ns, earlier[n - 1]);
      RestoredIsAdmitted(Grown(bare, n - 1), ns);
      GrownStep(bare, n - 1);
    }
    GrownStep(bare, n);
    RemoveInserted(Grown(bare, n), ns.own, last.0, last.1);
  }
}
