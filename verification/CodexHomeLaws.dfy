/**
 The laws of the two-file routing transactions: an enable is accepted by the managed
 validation exactly for the values the files can carry, a disable undoes it, a home
 determines the values it validates for, and native and managed exclude each other.
 */
module CodexHomeLaws {

  import opened CodexConfig
  import opened CodexConfigLaws
  import opened CodexHome
  import opened Text
  import opened Wrappers

  // ----- Reading normalised text -------------------------------------------

  lemma {:induction false} SameTrimmedLines(a: seq<string>, b: seq<string>)
    requires |a| == |b| && forall i :: 0 <= i < |a| ==> Trim(a[i]) == Trim(b[i])
    ensures FirstHeader(a) == FirstHeader(b)
    ensures forall key :: FirstAssigned(a, key) == FirstAssigned(b, key)
  {
    hide Trim, AssignedTrimmed;
    if a != [] {
      SameTrimmedLines(a[1..], b[1..]);
      assert IsHeader(a[0]) == IsHeader(b[0]);
      assert forall key :: Assigned(a[0], key) == Assigned(b[0], key);
    }
  }

  /** Root keys read the same before and after the CRLF replacement. */
  lemma {:induction false} NormaliseReads(content: string, key: string)
    ensures RootAssignment(Normalise(content), key) == RootAssignment(content, key)
    ensures HasHeader(Normalise(content)) == HasHeader(content)
  {
    hide Split, FirstHeader, FirstAssigned, Trim, Normalise;
    var a, b := Split(content), Split(Normalise(content));
    NormaliseKeepsTrimmedLines(content);
    SameTrimmedLines(a, b);
    var k := FirstHeader(a);
    SameTrimmedLines(a[..k], b[..k]);
  }

  /** So do the markers. */
  lemma {:induction false} NormaliseMarkers(content: string, owner: Owner)
    requires WellMarked(owner)
    ensures HasMarker(Normalise(content), owner) == HasMarker(content, owner)
  {
    hide IndexOf, Normalise;
    IndexOfNormalise(content, owner.begin);
    IndexOfNormalise(content, owner.end);
  }

  /** Escaping commutes with the CRLF replacement. */
  lemma {:induction false} NormaliseEscaped(value: string)
    ensures Normalise(EscapeToml(value)) == EscapeToml(Normalise(value))
  {
    hide Normalise, EscapeToml;
    if value == "" {
      NormaliseIdentity(value);
      EscapePlain(value);
    } else {
      var c, w := value[0], value[1..];
      NormaliseEscaped(w);
      assert value == [c] + w;
      EscapeStep(c, w);
      NormaliseStep(value);
      EscapedFirst(w);
      var e := EscapeToml(w);
      if c == '\r' && StartsWith(w, '\n') {
        assert ("\r" + e)[1..] == e;
        NormaliseStep("\r" + e);
      } else {
        NormalisePrefix(EscapeChar(c), e);
        EscapeStep(c, Normalise(w));
      }
    }
  }

  lemma {:induction false} EscapedFirst(w: string)
    ensures StartsWith(EscapeToml(w), '\n') <==> StartsWith(w, '\n')
  {
  }

  lemma {:induction false} NormalisePrefix(p: string, e: string)
    requires 1 <= |p| <= 2 && (p[0] == '\r' ==> |p| == 1 && !StartsWith(e, '\n'))
    requires |p| == 2 ==> p[1] != '\r' && p[1] != '\n'
    ensures Normalise(p + e) == p + Normalise(e)
  {
    assert (p + e)[1..] == p[1..] + e;
    if |p| == 2 {
      assert (p[1..] + e)[1..] == e;
    } else {
      assert p[1..] + e == e;
    }
  }

  /** The CRLF replacement works inside the two assignment values of a block and nowhere else. */
  lemma {:induction false} NormaliseAssignment(key: string, value: string)
    requires Lacks(key, '\r')
    ensures Normalise(Assignment(key, value)) == Assignment(key, Normalise(value))
  {
    hide EscapeToml, Normalise;
    var a, e := key + " = \"", EscapeToml(value);
    assert Assignment(key, value) == a + (e + "\"");
    NormaliseAppend(a, e + "\"");
    NormaliseAppend(e, "\"");
    NormaliseIdentity(a);
    NormaliseIdentity("\"");
    NormaliseEscaped(value);
  }

  lemma {:induction false} NormaliseBlock(owner: Owner, u: string, c: string)
    requires WellMarked(owner)
    ensures Normalise(Join(Block(owner, u, c))) == Join(Block(owner, Normalise(u), Normalise(c)))
  {
    hide Join, Block, Assignment, Normalise;
    var b, e := owner.begin, owner.end;
    var l1, l2 := Assignment(BASE_URL, u), Assignment(CATALOG, c);
    BlockText(owner, u, c);
    BlockText(owner, Normalise(u), Normalise(c));
    AssignmentEnd(BASE_URL, u);
    AssignmentEnd(CATALOG, c);
    NormaliseAssignment(BASE_URL, u);
    NormaliseAssignment(CATALOG, c);
    NormaliseIdentity(b);
    NormaliseIdentity(e);
    var t2 := l2 + ("\n" + e);
    var t1 := l1 + ("\n" + t2);
    assert b + "\n" + l1 + "\n" + l2 + "\n" + e == b + ("\n" + t1);
    NormaliseNewline(b, t1);
    NormaliseNewline(l1, t2);
    NormaliseNewline(l2, e);
  }

  lemma {:induction false} AssignmentEnd(key: string, value: string)
    ensures Assignment(key, value) != "" && Assignment(key, value)[|Assignment(key, value)| - 1] == '"'
  {
    hide EscapeToml;
  }

  lemma {:induction false} NormaliseNewline(a: string, b: string)
    requires a == "" || a[|a| - 1] != '\r'
    ensures Normalise(a + ("\n" + b)) == Normalise(a) + ("\n" + Normalise(b))
  {
    NormaliseAppend(a, "\n" + b);
    assert ("\n" + b)[1..] == b;
  }

  // ----- An enabled file as it is read back --------------------------------

  /** An enabled text after the CRLF replacement. */
  lemma {:induction false} EnabledAsRead(bare: string, owner: Owner, u: string, c: string)
    requires WellMarked(owner)
    ensures var block := Join(Block(owner, u, c));
            && Normalise(InsertBlock(bare, Block(owner, u, c))) ==
               Normalise(Before(bare)) + Normalise(block + Behind(bare))
            && Normalise(block + Behind(bare)) == Normalise(block) + Normalise(Behind(bare))
            && DropLineEnd(Normalise(Behind(bare))) == Normalise(Tables(bare))
            && Normalise(Before(bare)) + Normalise(Tables(bare)) == Normalise(Restored(bare))
  {
    hide Join, Block, InsertBlock, Before, Tables, HasHeader, Normalise;
    var block := Join(Block(owner, u, c));
    var p, s, t := Before(bare), Behind(bare), Tables(bare);
    InsertedShape(bare, Block(owner, u, c));
    OriginalShape(bare);
    BlockEdges(owner, u, c);
    assert p + block + s == p + (block + s);
    NormaliseAppend(p, block + s);
    NormaliseAppend(block, s);
    NormaliseAppend(p, t);
    NormaliseBehind(bare);
  }

  lemma {:induction false} BlockEdges(owner: Owner, u: string, c: string)
    requires WellMarked(owner)
    ensures var block := Join(Block(owner, u, c));
            block != "" && block[0] == '#' && block[|block| - 1] == owner.end[|owner.end| - 1] != '\r'
  {
    hide Join, Block, Assignment;
    BlockText(owner, u, c);
  }

  lemma {:induction false} NormaliseBehind(bare: string)
    ensures DropLineEnd(Normalise(Behind(bare))) == Normalise(Tables(bare))
  {
    hide HasHeader, Tables;
    if HasHeader(bare) {
      var t := Tables(bare);
      assert ("\n" + t)[1..] == t;
      assert Normalise("\n" + t) == "\n" + Normalise(t);
      assert ("\n" + Normalise(t))[1..] == Normalise(t);
    } else {
      BehindDropped(bare);
    }
  }

  /**
   The span validation compares is the block as it reads back, or, when a value holds the
   end marker, something shorter than the block that was written.
   */
  lemma {:induction false} SpanOfEnabled(bare: string, owner: Owner, u: string, c: string)
    requires WellMarked(owner) && !HasMarker(bare, owner)
    ensures var block := Join(Block(owner, u, c));
            var text := Normalise(InsertBlock(bare, Block(owner, u, c)));
            var span := ManagedSpan(text, owner);
            && HasMarker(text, owner)
            && (EndMarkerFree(owner, u, c) ==> span == Some(Normalise(block)))
            && (!EndMarkerFree(owner, u, c) ==> span.Some? && |span.value| < |block|)
            && (EndMarkerFree(owner, u, c) ==> RemoveManaged(text, owner) == Ok(Normalise(Restored(bare))))
  {
    hide IndexOf, Join, Block, InsertBlock, Before, Tables, HasHeader, Normalise, RemoveManaged, Restored, ManagedSpan;
    var block := Join(Block(owner, u, c));
    var p, s := Normalise(Before(bare)), Behind(bare);
    EnabledAsRead(bare, owner, u, c);
    PartsMarkerFree(bare, owner.begin);
    PartsMarkerFree(bare, owner.end);
    OriginalShape(bare);
    NormalisedLineEnd(Before(bare));
    IndexOfNormalise(Before(bare), owner.begin);
    IndexOfNormalise(Before(bare), owner.end);
    EndOfBlock(owner, u, c, s);
    var q := Normalise(block + s);
    SpanBehind(p, q, owner);
    if EndMarkerFree(owner, u, c) {
      assert q[..|Normalise(block)|] == Normalise(block);
      RemoveSpan(p, Normalise(block), Normalise(s), owner);
      assert p + Normalise(block) + Normalise(s) == p + q;
    }
  }

  /** Complete marker-free lines in front of a text that begins with the begin marker. */
  lemma {:induction false} SpanBehind(p: string, q: string, owner: Owner)
    requires WellMarked(owner) && !HasMarker(p, owner) && (p == "" || p[|p| - 1] == '\n')
    requires IndexOf(q, owner.begin) == 0 && IndexOf(q, owner.end) >= 0
    ensures HasMarker(p + q, owner)
    ensures IndexOf(p + q, owner.begin) == |p| && IndexOf(p + q, owner.end) == |p| + IndexOf(q, owner.end)
    ensures ManagedSpan(p + q, owner) == Some(q[..IndexOf(q, owner.end) + |owner.end|])
  {
    hide IndexOf, WellMarked;
    MarkerTexts(owner);
    SearchBehind(p, q, owner.begin);
    SearchBehind(p, q, owner.end);
    var j := IndexOf(q, owner.end);
    assert (p + q)[|p|..|p| + j + |owner.end|] == q[..j + |owner.end|];
  }

  lemma {:induction false} NormalisedLineEnd(p: string)
    requires p == "" || p[|p| - 1] == '\n'
    ensures Normalise(p) == "" || Normalise(p)[|Normalise(p)| - 1] == '\n'
  {
    if p != "" {
      NormaliseAppend(p[..|p| - 1], "");
      var a := p[..|p| - 1];
      assert p == a + "\n";
      if a != "" && a[|a| - 1] == '\r' {
        var b := a[..|a| - 1];
        assert p == b + "\r\n";
        NormaliseAppend(b, "\r\n");
        assert "\r\n"[1..] == "\n";
        assert Normalise("\r\n") == "\n";
      } else {
        NormaliseAppend(a, "\n");
        assert Normalise("\n") == "\n";
      }
    }
  }

  /** Where the markers are once a block and what follows it have been normalised. */
  lemma {:induction false} EndOfBlock(owner: Owner, u: string, c: string, s: string)
    requires WellMarked(owner) && (s == "" || s[0] == '\n')
    ensures var block := Join(Block(owner, u, c)); var text := Normalise(block + s);
            && IndexOf(text, owner.begin) == 0
            && 0 <= IndexOf(text, owner.end) <= |text| - |owner.end|
            && (EndMarkerFree(owner, u, c) ==> IndexOf(text, owner.end) + |owner.end| == |Normalise(block)|)
            && (!EndMarkerFree(owner, u, c) ==> IndexOf(text, owner.end) + |owner.end| < |block|)
  {
    hide IndexOf, Join, Block, Normalise, WellMarked, EndMarkerFree;
    var b, e := owner.begin, owner.end;
    var block := Join(Block(owner, u, c));
    MarkerTexts(owner);
    IndexOfNormalise(block + s, b);
    IndexOfNormalise(block + s, e);
    BlockFirstMarkers(owner, u, c, s);
    assert (block + s)[..0] == "";
    assert Normalise("") == "" by { NormaliseIdentity(""); }
    if EndMarkerFree(owner, u, c) {
      var front := block[..|block| - |e|];
      assert (block + s)[..|block| - |e|] == front;
      assert block == front + e;
      NormaliseAppend(front, e);
      NormaliseIdentity(e);
    }
  }

  lemma {:induction false} MarkerTexts(owner: Owner)
    requires WellMarked(owner)
    ensures owner.begin != "" && '\r' !in owner.begin && '\n' !in owner.begin
    ensures owner.end != "" && '\r' !in owner.end && '\n' !in owner.end && owner.end[0] != '\n'
  {
    assert forall i :: 0 <= i < |owner.begin| ==> PlainChar(owner.begin[i]);
    assert forall i :: 0 <= i < |owner.end| ==> PlainChar(owner.end[i]);
  }

  lemma {:induction false} BlockFirstMarkers(owner: Owner, u: string, c: string, s: string)
    requires WellMarked(owner)
    ensures var block := Join(Block(owner, u, c)); var e := owner.end;
            && |block| >= |e| && block[|block| - |e|..] == e
            && IndexOf(block + s, owner.begin) == 0
            && IndexOf(block + s, e) >= 0
            && (EndMarkerFree(owner, u, c) ==> IndexOf(block + s, e) == |block| - |e|)
            && (!EndMarkerFree(owner, u, c) ==> IndexOf(block + s, e) < |block| - |e|)
  {
    hide IndexOf, Join, Block, Assignment;
    var b, e := owner.begin, owner.end;
    var l1, l2 := Assignment(BASE_URL, u), Assignment(CATALOG, c);
    BlockText(owner, u, c);
    BlockLinesClear(owner, u, c);
    var block := Join(Block(owner, u, c));
    var front := b + "\n" + l1 + "\n" + l2;
    assert block == front + "\n" + e;
    assert block[|block| - |e|..] == e;
    assert block + s == front + "\n" + (e + s);
    assert OccursAt(block + s, b, 0) by { assert (block + s)[..|b|] == b; }
    assert OccursAt(e + s, e, 0) by { assert (e + s)[..|e|] == e; }
    IndexOfAcross(b, '\n', l1, e);
    IndexOfAcross(b + "\n" + l1, '\n', l2, e);
    IndexOfAcross(front, '\n', e + s, e);
  }

  // ----- The side profile --------------------------------------------------

  /** A rendered profile is recognised exactly when both its values are single lines. */
  lemma {:induction false} RenderedProfileValid(u: string, c: string, owner: Owner)
    requires WellMarked(owner)
    ensures ValidProfile(RenderProfile(u, c, owner), owner) <==> '\n' !in u && '\n' !in c
  {
    hide Join, Split, Assignment, Normalise, LooksAssigned;
    var m := owner.profileMarker;
    var l1, l2 := Assignment(BASE_URL, u), Assignment(CATALOG, c);
    ProfileText(u, c, owner);
    var n1, n2 := Assignment(BASE_URL, Normalise(u)), Assignment(CATALOG, Normalise(c));
    NormaliseProfile(u, c, owner);
    var body := m + "\n" + n1 + "\n" + n2;
    assert TrimFinalNewline(body + "\n") == body;
    SplitAcross(m, n1);
    SplitAcross(m + "\n" + n1, n2);
    SplitOneLine(m);
    AssignmentLines(BASE_URL, u);
    AssignmentLines(CATALOG, c);
  }

  lemma {:induction false} ProfileText(u: string, c: string, owner: Owner)
    ensures RenderProfile(u, c, owner) ==
            owner.profileMarker + "\n" + Assignment(BASE_URL, u) + "\n" + Assignment(CATALOG, c) + "\n"
  {
    hide Assignment;
    var b := [owner.profileMarker, Assignment(BASE_URL, u), Assignment(CATALOG, c)];
    assert b[1..][1..] == b[2..];
    assert Join(b[2..]) == b[2];
    assert Join(b[1..]) == b[1] + "\n" + Join(b[2..]);
  }

  lemma {:induction false} NormaliseProfile(u: string, c: string, owner: Owner)
    requires WellMarked(owner)
    ensures Normalise(RenderProfile(u, c, owner)) ==
            owner.profileMarker + "\n" + Assignment(BASE_URL, Normalise(u)) + "\n" +
                Assignment(CATALOG, Normalise(c)) + "\n"
  {
    hide Assignment, Normalise, RenderProfile;
    var m := owner.profileMarker;
    var l1, l2 := Assignment(BASE_URL, u), Assignment(CATALOG, c);
    ProfileText(u, c, owner);
    AssignmentEnd(BASE_URL, u);
    AssignmentEnd(CATALOG, c);
    NormaliseAssignment(BASE_URL, u);
    NormaliseAssignment(CATALOG, c);
    NormaliseIdentity(m);
    NormaliseIdentity("");
    var t2 := l2 + ("\n" + "");
    var t1 := l1 + ("\n" + t2);
    assert m + "\n" + l1 + "\n" + l2 + "\n" == m + ("\n" + t1);
    NormaliseNewline(m, t1);
    NormaliseNewline(l1, t2);
    NormaliseNewline(l2, "");
  }

  /** One line when the value is one line, more otherwise; as one line it looks assigned. */
  lemma {:induction false} AssignmentLines(key: string, value: string)
    requires '\n' !in key
    ensures var line := Assignment(key, Normalise(value));
            && LooksAssigned(line, key)
            && ('\n' !in value ==> Split(line) == [line])
            && ('\n' in value ==> |Split(line)| > 1)
  {
    hide Split, Normalise, EscapeToml;
    NormaliseKeepsLf(value);
    EscapeKeepsLf(Normalise(value));
    var e := EscapeToml(Normalise(value));
    var line := Assignment(key, Normalise(value));
    if '\n' !in e {
      SplitOneLine(line);
    } else {
      var i :| 0 <= i < |e| && e[i] == '\n';
      var a, b := key + " = \"" + e[..i], e[i + 1..] + "\"";
      assert e == e[..i] + "\n" + e[i + 1..];
      assert line == a + "\n" + b;
      SplitAcross(a, b);
    }
  }

  lemma {:induction false} NormaliseKeepsLf(s: string)
    ensures '\n' in Normalise(s) <==> '\n' in s
  {
    if s != "" {
      NormaliseKeepsLf(s[1..]);
      assert s == [s[0]] + s[1..];
    }
  }

  lemma {:induction false} EscapeKeepsLf(s: string)
    ensures '\n' in EscapeToml(s) <==> '\n' in s
  {
    if s != "" {
      EscapeKeepsLf(s[1..]);
      assert s == [s[0]] + s[1..];
    }
  }

  // ----- The laws ----------------------------------------------------------

  /** The text the block goes into when `home` is enabled. */
  function BareOf(home: Home, ns: Namespace): string
    requires EnabledHome(home, ns, "", "", "").Ok?
  {
    Admit(ReadOptional(home.config).value, ns).value
  }

  /** Whether an enable succeeds does not depend on the values. */
  lemma {:induction false} EnableAnyValues(home: Home, ns: Namespace, g: string, i: string, c: string)
    ensures EnabledHome(home, ns, g, i, c).Ok? <==> EnabledHome(home, ns, "", "", "").Ok?
    ensures EnabledHome(home, ns, g, i, c).Ok? ==>
              && EnabledHome(home, ns, g, i, c).value ==
                 home.(config := Regular(InsertBlock(BareOf(home, ns), Block(ns.own, g, c)), true),
                       profile := Regular(RenderProfile(i, c, ns.own), true))
              && !HasMarker(BareOf(home, ns), ns.other)
              && home.foreignProfile.Absent?
              && !RootKeyExists(BareOf(home, ns), BASE_URL) && !RootKeyExists(BareOf(home, ns), CATALOG)
              && (RootString(BareOf(home, ns), PROVIDER).Some? ==>
                RootString(BareOf(home, ns), PROVIDER).value == "openai")
  {
    hide RemoveManaged, HasMarker, RootAssignment, Unquote, ValidProfile, InsertBlock, Block, RenderProfile;
  }

  /** What the root part of the inspection finds in the text an enable leaves around its block. */
  lemma {:induction false} RestoredReadsClean(bare: string, ns: Namespace)
    requires WellFormed(ns) && !HasMarker(bare, ns.other)
    requires !RootKeyExists(bare, BASE_URL) && !RootKeyExists(bare, CATALOG)
    requires RootString(bare, PROVIDER).Some? ==> RootString(bare, PROVIDER).value == "openai"
    ensures !ForeignOrUnmanaged(InspectRoot(Normalise(Restored(bare)), ns, true))
  {
    hide IndexOf, RootAssignment, Unquote, HasHeader, Normalise;
    PartsMarkerFree(bare, ns.other.begin);
    PartsMarkerFree(bare, ns.other.end);
    NormaliseMarkers(Restored(bare), ns.other);
    if !HasHeader(bare) {
      FinalNewlineReads(bare, BASE_URL);
      FinalNewlineReads(bare, CATALOG);
      FinalNewlineReads(bare, PROVIDER);
    }
    NormaliseReads(Restored(bare), BASE_URL);
    NormaliseReads(Restored(bare), CATALOG);
    NormaliseReads(Restored(bare), PROVIDER);
  }

  /** The values both files can carry so that validation finds them again. */
  predicate Carried(owner: Owner, g: string, i: string, c: string) {
    EndMarkerFree(owner, g, c) && Normalise(g) == g && '\n' !in i && '\n' !in c
  }

  /** A block reads back as written exactly when its values hold no CRLF. */
  lemma {:induction false} BlockReadsBack(owner: Owner, g: string, c: string)
    requires WellMarked(owner)
    ensures Normalise(Join(Block(owner, g, c))) == Join(Block(owner, g, c)) <==> Normalise(g) == g && Normalise(c) == c
  {
    hide Join, Block, Normalise;
    NormaliseBlock(owner, g, c);
    if Normalise(Join(Block(owner, g, c))) == Join(Block(owner, g, c)) {
      BlockInjective(owner, Normalise(g), Normalise(c), g, c);
    }
  }

  lemma {:induction false} OneLineNormal(s: string)
    requires '\n' !in s
    ensures Normalise(s) == s
  {
    NormaliseIdentity(s);
  }

  /**
   The exact acceptance law: after an enable of a home whose own block, if any, is the only
   one, managed validation with the same values accepts if and only if the values are carried.
   */
  lemma {:induction false} EnableThenValidate(home: Home, ns: Namespace, g: string, i: string, c: string)
    requires WellFormed(ns) && EnabledHome(home, ns, g, i, c).Ok?
    requires EnabledHome(home, ns, "", "", "").Ok? && !HasMarker(BareOf(home, ns), ns.own)
    ensures ValidateManaged(EnabledHome(home, ns, g, i, c).value, ns, g, i, c) <==> Carried(ns.own, g, i, c)
  {
    hide RemoveManaged, HasMarker, RootAssignment, RootString, ValidProfile, InsertBlock, Block, RenderProfile,
      BareOf, EnabledHome, ManagedSpan, Normalise, EndMarkerFree, Restored, Join;
    var bare := BareOf(home, ns);
    EnableAnyValues(home, ns, g, i, c);
    SpanOfEnabled(bare, ns.own, g, c);
    BlockReadsBack(ns.own, g, c);
    RenderedProfileValid(i, c, ns.own);
    RestoredReadsClean(bare, ns);
    if '\n' !in c { OneLineNormal(c); }
  }

  /** A disable after an enable gives back the text around the block and removes the profile. */
  lemma {:induction false} EnableThenDisable(home: Home, ns: Namespace, g: string, i: string, c: string)
    requires WellFormed(ns) && EnabledHome(home, ns, g, i, c).Ok? && Carried(ns.own, g, i, c)
    requires EnabledHome(home, ns, "", "", "").Ok? && !HasMarker(BareOf(home, ns), ns.own)
    ensures DisabledHome(EnabledHome(home, ns, g, i, c).value, ns) ==
            Ok(home.(config := Regular(Restored(BareOf(home, ns)), true), profile := Absent))
  {
    hide RemoveManaged, HasMarker, RootAssignment, RootString, ValidProfile, InsertBlock, Block, RenderProfile,
      BareOf, EnabledHome, ManagedSpan, InspectRoot, Normalise, EndMarkerFree, Restored, Join;
    var bare := BareOf(home, ns);
    EnableAnyValues(home, ns, g, i, c);
    EnableThenValidate(home, ns, g, i, c);
    RemoveInserted(bare, ns.own, g, c);
    var text := InsertBlock(bare, Block(ns.own, g, c));
    MarkerGone(bare, ns.own, g, c);
  }

  lemma {:induction false} MarkerGone(bare: string, owner: Owner, g: string, c: string)
    requires WellMarked(owner) && !HasMarker(bare, owner)
    ensures InsertBlock(bare, Block(owner, g, c)) != Restored(bare)
  {
    hide IndexOf, Join, Block, InsertBlock, Before, Tables, HasHeader, Restored, Behind;
    var block := Join(Block(owner, g, c));
    InsertedShape(bare, Block(owner, g, c));
    BlockFirstMarkers(owner, g, c, "");
    assert block + "" == block;
    ContainsPart(Before(bare), block, Behind(bare), owner.begin);
    PartsMarkerFree(bare, owner.begin);
  }

  /** A home validates for at most one triple of values. */
  lemma {:induction false} ManagedDeterminesValues(home: Home, ns: Namespace,
                                                   g1: string, i1: string, c1: string,
                                                   g2: string, i2: string, c2: string)
    requires ValidateManaged(home, ns, g1, i1, c1) && ValidateManaged(home, ns, g2, i2, c2)
    ensures g1 == g2 && i1 == i2 && c1 == c2
  {
    hide InspectRouting, Join, Block, ManagedSpan, RenderProfile, ReadOptional, ForeignOrUnmanaged;
    BlockInjective(ns.own, g1, c1, g2, c2);
    ProfileInjective(i1, i2, c1, ns.own);
  }

  lemma {:induction false} ProfileInjective(i1: string, i2: string, c: string, owner: Owner)
    requires RenderProfile(i1, c, owner) == RenderProfile(i2, c, owner)
    ensures i1 == i2
  {
    hide RenderProfile, EscapeToml;
    var head := owner.profileMarker + "\n" + BASE_URL + " = \"";
    var rest := "\n" + Assignment(CATALOG, c) + "\n";
    ProfileText(i1, c, owner);
    ProfileText(i2, c, owner);
    assert RenderProfile(i1, c, owner) == head + (EscapeToml(i1) + "\"" + rest);
    assert RenderProfile(i2, c, owner) == head + (EscapeToml(i2) + "\"" + rest);
    Cancel(head, EscapeToml(i1) + "\"" + rest, EscapeToml(i2) + "\"" + rest);
    EscapeDelimits(i1, i2, rest, rest);
  }

  /** Native and managed validation never both accept. */
  lemma {:induction false} NativeExcludesManaged(home: Home, ns: Namespace, g: string, i: string, c: string)
    ensures !(ValidateNative(home, ns) && ValidateManaged(home, ns, g, i, c))
  {}
}
