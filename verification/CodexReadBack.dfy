/**
 What an enabled text reads as: the two managed keys read back exactly the values that
 TOML escaping without unescaping can carry, every other key reads as before, and every
 line from the first table header on is kept.
 */
module CodexReadBack {

  import opened CodexConfig
  import opened CodexConfigLaws
  import opened Text
  import opened Wrappers

  // ----- One assignment line -----------------------------------------------

  /** Reading undoes writing for a value without backslash, and never for one with a backslash. */
  lemma {:induction false} UnescapeOfEscape(value: string)
    ensures |UnescapeQuotes(EscapeToml(value))| >= |value|
    ensures UnescapeQuotes(EscapeToml(value)) == value <==> '\\' !in value
  {
    if value != "" {
      var c, w := value[0], value[1..];
      UnescapeOfEscape(w);
      UnescapeStep(c, w);
      hide UnescapeQuotes, EscapeToml;
      assert value == [c] + w;
      if c != '\\' {
        assert '\\' in value <==> '\\' in w;
      }
    }
  }

  /** One written character reads as itself, a backslash as two. */
  lemma {:induction false} UnescapeStep(c: char, w: string)
    ensures var u := UnescapeQuotes(EscapeToml(w));
            UnescapeQuotes(EscapeToml([c] + w)) == (if c == '\\' then "\\\\" else [c]) + u
  {
    hide EscapeToml, UnescapeQuotes;
    var e := EscapeToml(w);
    EscapeStep(c, w);
    NoQuoteFirst(w);
    if c == '"' {
      assert ("\\\"" + e)[2..] == e;
      UnescapeTwo("\\\"" + e);
    } else if c == '\\' {
      assert ("\\\\" + e)[1..] == "\\" + e;
      UnescapeOne("\\\\" + e);
      assert ("\\" + e)[1..] == e;
      UnescapeOne("\\" + e);
    } else {
      assert ([c] + e)[1..] == e;
      UnescapeOne([c] + e);
    }
  }

  /** Escaped text never starts with a bare quote. */
  lemma {:induction false} NoQuoteFirst(w: string)
    ensures !StartsWith(EscapeToml(w), '"')
  {
    if w != "" {
      assert EscapeToml(w)[0] == EscapeChar(w[0])[0];
    }
  }

  lemma {:induction false} UnescapeOne(s: string)
    requires s != "" && !(|s| >= 2 && s[0] == '\\' && s[1] == '"')
    ensures UnescapeQuotes(s) == [s[0]] + UnescapeQuotes(s[1..])
  {
  }

  lemma {:induction false} UnescapeTwo(s: string)
    requires |s| >= 2 && s[0] == '\\' && s[1] == '"'
    ensures UnescapeQuotes(s) == "\"" + UnescapeQuotes(s[2..])
  {
  }

  predicate KeyLike(key: string) {
    key != "" && !IsSpace(key[0]) && key[0] != '#' && key[0] != '['
  }

  lemma {:induction false} ManagedKeys()
    ensures KeyLike(BASE_URL) && KeyLike(CATALOG)
    ensures Lacks(BASE_URL, ' ') && Lacks(BASE_URL, '=') && Lacks(CATALOG, ' ') && Lacks(CATALOG, '=')
    ensures forall i :: 0 <= i < |BASE_URL| ==> !IsSpace(BASE_URL[i])
    ensures forall i :: 0 <= i < |CATALOG| ==> !IsSpace(CATALOG[i])
  {}

  lemma {:induction false} TrimFirst(s: string)
    requires s != "" && !IsSpace(s[0])
    ensures StartsWith(Trim(s), s[0])
  {
    hide IsSpace;
    TrimRightFirst(s);
  }

  lemma {:induction false} TrimRightFirst(s: string)
    requires s != "" && !IsSpace(s[0])
    ensures StartsWith(TrimRight(s), s[0])
  {
    hide IsSpace;
    if IsSpace(s[|s| - 1]) {
      TrimRightFirst(s[..|s| - 1]);
    }
  }

  /** A rendered assignment is its own trimmed form. */
  lemma {:induction false} TrimAssignment(key: string, value: string)
    requires KeyLike(key)
    ensures Trim(Assignment(key, value)) == Assignment(key, value)
    ensures StartsWith(Assignment(key, value), key[0])
  {
    hide EscapeToml, TrimLeft, TrimRight;
    var line := Assignment(key, value);
    assert line[|line| - 1] == '"';
    TrimIdentity(line);
  }

  /** It assigns its key the quoted, escaped value. */
  lemma {:induction false} AssignmentAssigns(key: string, value: string)
    requires KeyLike(key)
    ensures Assigned(Assignment(key, value), key) == Some("\"" + EscapeToml(value) + "\"")
  {
    hide EscapeToml, Trim;
    var quoted := "\"" + EscapeToml(value) + "\"";
    var line := Assignment(key, value);
    TrimAssignment(key, value);
    assert line == key + (" = " + quoted);
    assert line[|key|..] == " = " + quoted;
    assert " = " + quoted == " " + ("= " + quoted);
    TrimOneSpace("= " + quoted);
    assert ("= " + quoted)[1..] == " " + quoted;
    TrimOneSpace(quoted);
  }

  lemma {:induction false} UnquoteQuoted(inner: string)
    ensures Unquote("\"" + inner + "\"") == UnescapeQuotes(inner)
  {
    hide UnescapeQuotes, Trim;
    var value := "\"" + inner + "\"";
    TrimIdentity(value);
    assert value[1..|value| - 1] == inner;
  }

  /** It assigns no other key that is free of spaces. */
  lemma {:induction false} AssignmentOfOtherKey(key: string, value: string, other: string)
    requires KeyLike(key) && Lacks(key, '=') && forall i :: 0 <= i < |key| ==> !IsSpace(key[i])
    requires other != key && Lacks(other, ' ')
    ensures Assigned(Assignment(key, value), other).None?
  {
    hide EscapeToml, Trim, IsSpace;
    var line := Assignment(key, value);
    TrimAssignment(key, value);
    if other <= line {
      assert line[|key|] == ' ' && line[..|key|] == key;
      assert other == line[..|other|];
      assert |other| < |key|;
      var rest := line[|other|..];
      assert rest[0] == key[|other|];
      TrimFirst(rest);
    }
  }

  lemma {:induction false} MarkerLineAssignsNothing(m: string, key: string)
    requires StartsWith(m, '#')
    ensures Assigned(m, key).None? && !IsHeader(m)
  {
    hide Trim;
    assert !IsSpace('#');
    TrimFirst(m);
  }

  // ----- The lines of an enabled text --------------------------------------

  lemma {:induction false} InsertedLines(bare: string, owner: Owner, u: string, c: string)
    requires WellMarked(owner)
    ensures var lines := Split(bare); var k := FirstHeader(lines);
            Split(InsertBlock(bare, Block(owner, u, c))) ==
            lines[..k] + ([owner.begin] + Split(Assignment(BASE_URL, u)) + Split(Assignment(CATALOG, c)) + [owner.end])
            + lines[k..]
  {
    hide Split, FirstHeader, Join, Assignment;
    var lines := Split(bare);
    var k := FirstHeader(lines);
    var block := Block(owner, u, c);
    var l1, l2 := Assignment(BASE_URL, u), Assignment(CATALOG, c);
    BlockText(owner, u, c);
    SplitBlock(owner, l1, l2);
    var all := lines[..k] + block + lines[k..];
    SplitAround(lines[..k], block, lines[k..]);
  }

  lemma {:induction false} SplitBlock(owner: Owner, l1: string, l2: string)
    requires WellMarked(owner)
    ensures Split(owner.begin + "\n" + l1 + "\n" + l2 + "\n" + owner.end) ==
            [owner.begin] + Split(l1) + Split(l2) + [owner.end]
  {
    hide Split, Join;
    SplitOneLine(owner.begin);
    SplitOneLine(owner.end);
    SplitAcross(owner.begin, l1);
    SplitAcross(owner.begin + "\n" + l1, l2);
    SplitAcross(owner.begin + "\n" + l1 + "\n" + l2, owner.end);
  }

  /** Splitting a joined text whose outer lines hold no newline re-splits only the middle. */
  lemma {:induction false} SplitAround(a: seq<string>, mid: seq<string>, b: seq<string>)
    requires mid != []
    requires forall i :: 0 <= i < |a| ==> '\n' !in a[i]
    requires forall i :: 0 <= i < |b| ==> '\n' !in b[i]
    ensures Split(Join(a + mid + b)) == a + Split(Join(mid)) + b
  {
    hide Split, Join;
    if a == [] {
      assert a + mid == mid;
    } else {
      JoinAppend(a, mid);
      SplitAcross(Join(a), Join(mid));
      SplitOfJoin(a);
    }
    if b == [] {
      assert a + mid + b == a + mid;
    } else {
      JoinAppend(a + mid, b);
      SplitAcross(Join(a + mid), Join(b));
      SplitOfJoin(b);
    }
  }

  /** The root part of any text whose lines start with header-free lines `a`. */
  lemma {:induction false} RootStartsWith(content: string, a: seq<string>, b: seq<string>, key: string)
    requires Split(content) == a + b && FirstHeader(a) == |a|
    ensures RootAssignment(content, key) ==
            if FirstAssigned(a, key).Some? then FirstAssigned(a, key)
            else FirstAssigned(b[..FirstHeader(b)], key)
  {
    hide Split, FirstAssigned, IsHeader, FirstHeader;
    FirstHeaderAppend(a, b);
    var k := FirstHeader(b);
    assert (a + b)[..|a| + k] == a + b[..k];
    FirstAssignedAppend(a, b[..k], key);
  }

  /** What is read from a single line that is known not to be a header. */
  lemma {:induction false} OneMore(a: seq<string>, line: string)
    requires FirstHeader(a) == |a| && !IsHeader(line)
    ensures FirstHeader(a + [line]) == |a + [line]|
  {
    hide IsHeader;
    FirstHeaderAppend(a, [line]);
  }

  /** The root lines of a text without the key do not assign it. */
  lemma {:induction false} RootPrefix(bare: string, key: string)
    ensures var lines := Split(bare); var k := FirstHeader(lines);
            && FirstHeader(lines[..k]) == k
            && FirstAssigned(lines[..k], key) == RootAssignment(bare, key)
  {
    hide Split, FirstAssigned, IsHeader;
    var lines := Split(bare);
    var k := FirstHeader(lines);
    assert forall i :: 0 <= i < k ==> lines[..k][i] == lines[i];
  }

  // ----- Values are single lines -------------------------------------------

  lemma {:induction false} TrimOneLine(s: string)
    requires Lacks(s, '\n')
    ensures Lacks(Trim(s), '\n')
  {
    hide IsSpace;
    TrimLeftOneLine(s);
    TrimRightOneLine(TrimLeft(s));
  }

  lemma {:induction false} TrimLeftOneLine(s: string)
    requires Lacks(s, '\n')
    ensures Lacks(TrimLeft(s), '\n')
  {
    hide IsSpace;
    if s != "" && IsSpace(s[0]) { TrimLeftOneLine(s[1..]); }
  }

  lemma {:induction false} TrimRightOneLine(s: string)
    requires Lacks(s, '\n')
    ensures Lacks(TrimRight(s), '\n')
  {
    hide IsSpace;
    if s != "" && IsSpace(s[|s| - 1]) { TrimRightOneLine(s[..|s| - 1]); }
  }

  lemma {:induction false} UnescapeOneLine(s: string)
    requires Lacks(s, '\n')
    ensures Lacks(UnescapeQuotes(s), '\n')
  {
    if |s| >= 2 && s[0] == '\\' && s[1] == '"' { UnescapeOneLine(s[2..]); }
    else if s != "" { UnescapeOneLine(s[1..]); }
  }

  lemma {:induction false} AssignedOneLine(line: string, key: string)
    requires Lacks(line, '\n')
    ensures var r := Assigned(line, key); r.Some? ==> Lacks(Unquote(r.value), '\n')
  {
    hide Trim, UnescapeQuotes;
    var t := Trim(line);
    TrimOneLine(line);
    var r := Assigned(line, key);
    if r.Some? {
      var rest := Trim(t[|key|..]);
      TrimOneLine(t[|key|..]);
      TrimOneLine(rest[1..]);
      TrimOneLine(r.value);
      var v := Trim(r.value);
      if |v| >= 2 { UnescapeOneLine(v[1..|v| - 1]); }
    }
  }

  lemma {:induction false} FirstAssignedOneLine(lines: seq<string>, key: string)
    requires forall i :: 0 <= i < |lines| ==> '\n' !in lines[i]
    ensures var r := FirstAssigned(lines, key); r.Some? ==> Lacks(Unquote(r.value), '\n')
  {
    hide Assigned, Unquote;
    if lines != [] {
      AssignedOneLine(lines[0], key);
      FirstAssignedOneLine(lines[1..], key);
    }
  }

  /** A root value never spans lines. */
  lemma {:induction false} RootStringOneLine(content: string, key: string)
    ensures var r := RootString(content, key); r.Some? ==> '\n' !in r.value
  {
    hide Split, FirstHeader, Unquote, FirstAssigned;
    FirstAssignedOneLine(RootLines(content), key);
  }

  // ----- The read-back law -------------------------------------------------

  predicate Representable(value: string) {
    '\n' !in value && '\\' !in value
  }

  /** What the assignment line itself reads as. */
  lemma {:induction false} AssignmentReads(key: string, value: string)
    requires KeyLike(key)
    ensures var r := Assigned(Assignment(key, value), key);
            r.Some? && (Unquote(r.value) == value <==> '\\' !in value)
  {
    hide Unquote, EscapeToml, Assignment, Assigned;
    AssignmentAssigns(key, value);
    UnquoteQuoted(EscapeToml(value));
    UnescapeOfEscape(value);
  }

  lemma {:induction false} AssignmentNoHeader(key: string, value: string)
    requires KeyLike(key) && '\n' !in value && '\n' !in key
    ensures !IsHeader(Assignment(key, value))
    ensures Split(Assignment(key, value)) == [Assignment(key, value)]
  {
    hide Trim, Split;
    TrimAssignment(key, value);
    EscapeOneLine(value);
    SplitOneLine(Assignment(key, value));
  }

  lemma {:induction false} EscapeOneLine(value: string)
    requires '\n' !in value
    ensures '\n' !in EscapeToml(value)
  {
    if value != "" { EscapeOneLine(value[1..]); }
  }

  /**
   The base URL reads back exactly when it holds neither a newline nor a backslash,
   whatever the catalog path is.
   */
  lemma {:induction false} BaseUrlReadsBack(bare: string, owner: Owner, u: string, c: string)
    requires WellMarked(owner) && !RootKeyExists(bare, BASE_URL)
    ensures RootString(InsertBlock(bare, Block(owner, u, c)), BASE_URL) == Some(u) <==> Representable(u)
  {
    hide Split, FirstHeader, FirstAssigned, Assigned, Assignment, InsertBlock, Block, Unquote, IsHeader, IsSpace,
      WellMarked;
    var text := InsertBlock(bare, Block(owner, u, c));
    RootStringOneLine(text, BASE_URL);
    if '\n' !in u {
      var lines := Split(bare);
      var k := FirstHeader(lines);
      var line := Assignment(BASE_URL, u);
      var a := lines[..k] + [owner.begin] + [line];
      InsertedLines(bare, owner, u, c);
      BlockHead(bare, owner, u);
      assert Split(text) == a + (Split(Assignment(CATALOG, c)) + [owner.end] + lines[k..]);
      RootStartsWith(text, a, Split(Assignment(CATALOG, c)) + [owner.end] + lines[k..], BASE_URL);
    }
  }

  /** The lines up to the base URL: none is a header, and the URL line is the first to assign it. */
  lemma {:induction false} BlockHead(bare: string, owner: Owner, u: string)
    requires WellMarked(owner) && '\n' !in u
    ensures var lines := Split(bare); var k := FirstHeader(lines); var line := Assignment(BASE_URL, u);
            var a := lines[..k] + [owner.begin] + [line];
            && Split(line) == [line]
            && FirstHeader(a) == |a|
            && (!RootKeyExists(bare, BASE_URL) ==>
                  var r := FirstAssigned(a, BASE_URL);
                  r.Some? && (Unquote(r.value) == u <==> '\\' !in u))
            && (forall key :: Lacks(key, ' ') && key != BASE_URL ==>
                  FirstAssigned(a, key) == RootAssignment(bare, key))
  {
    hide Split, FirstHeader, Assigned, Assignment, Unquote, IsHeader, IsSpace;
    var lines := Split(bare);
    var k := FirstHeader(lines);
    var line := Assignment(BASE_URL, u);
    ManagedKeys();
    AssignmentNoHeader(BASE_URL, u);
    AssignmentReads(BASE_URL, u);
    MarkerLineAssignsNothing(owner.begin, BASE_URL);
    RootPrefix(bare, BASE_URL);
    OneMore(lines[..k], owner.begin);
    OneMore(lines[..k] + [owner.begin], line);
    FirstAssignedAppend(lines[..k], [owner.begin], BASE_URL);
    FirstAssignedAppend(lines[..k] + [owner.begin], [line], BASE_URL);
    forall key | Lacks(key, ' ') && key != BASE_URL
      ensures FirstAssigned(lines[..k] + [owner.begin] + [line], key) == RootAssignment(bare, key) {
      MarkerLineAssignsNothing(owner.begin, key);
      AssignmentOfOtherKey(BASE_URL, u, key);
      RootPrefix(bare, key);
      FirstAssignedAppend(lines[..k], [owner.begin], key);
      FirstAssignedAppend(lines[..k] + [owner.begin], [line], key);
    }
  }

  /**
   The catalog path reads back exactly when it holds neither a newline nor a backslash,
   provided the base URL in front of it is one line.
   */
  lemma {:induction false} CatalogReadsBack(bare: string, owner: Owner, u: string, c: string)
    requires WellMarked(owner) && !RootKeyExists(bare, CATALOG) && '\n' !in u
    ensures RootString(InsertBlock(bare, Block(owner, u, c)), CATALOG) == Some(c) <==> Representable(c)
  {
    hide Split, FirstHeader, FirstAssigned, Assigned, Assignment, InsertBlock, Block, Unquote, IsHeader, IsSpace,
      WellMarked;
    var text := InsertBlock(bare, Block(owner, u, c));
    RootStringOneLine(text, CATALOG);
    if '\n' !in c {
      EnabledRoot(bare, owner, u, c, CATALOG);
      ManagedKeys();
      AssignmentReads(CATALOG, c);
    }
  }

  /** The root part of an enabled text, for a key that is not the base URL. */
  lemma {:induction false} EnabledRoot(bare: string, owner: Owner, u: string, c: string, key: string)
    requires WellMarked(owner) && '\n' !in u && '\n' !in c && Lacks(key, ' ') && key != BASE_URL
    ensures RootAssignment(InsertBlock(bare, Block(owner, u, c)), key) ==
            if RootAssignment(bare, key).Some? then RootAssignment(bare, key)
            else Assigned(Assignment(CATALOG, c), key)
  {
    hide Split, FirstHeader, Assigned, Assignment, InsertBlock, Block, IsHeader, IsSpace, RootAssignment, FirstAssigned;
    var text := InsertBlock(bare, Block(owner, u, c));
    var lines := Split(bare);
    var k := FirstHeader(lines);
    var l1, l2 := Assignment(BASE_URL, u), Assignment(CATALOG, c);
    InsertedLines(bare, owner, u, c);
    BlockHead(bare, owner, u);
    ManagedKeys();
    AssignmentNoHeader(CATALOG, c);
    MarkerLineAssignsNothing(owner.end, key);
    var a := lines[..k] + [owner.begin] + [l1];
    OneMore(a, l2);
    OneMore(a + [l2], owner.end);
    FirstAssignedAppend(a, [l2], key);
    FirstAssignedAppend(a + [l2], [owner.end], key);
    SingleLine(l2, key);
    SingleLine(owner.end, key);
    assert Split(text) == a + [l2] + [owner.end] + lines[k..];
    RootStartsWith(text, a + [l2] + [owner.end], lines[k..], key);
    HeaderFirst(lines, k);
    SingleNone(key);
  }

  lemma {:induction false} SingleLine(line: string, key: string)
    ensures FirstAssigned([line], key) == Assigned(line, key)
  {
    hide Assigned;
    assert [line][1..] == [];
  }

  lemma {:induction false} SingleNone(key: string)
    ensures FirstAssigned([], key).None?
  {}

  lemma {:induction false} HeaderFirst(lines: seq<string>, k: nat)
    requires k == FirstHeader(lines)
    ensures lines[k..][..FirstHeader(lines[k..])] == []
  {
    hide IsHeader;
    assert k < |lines| ==> lines[k..][0] == lines[k];
  }

  /**
   The frame of an enable, for values that are single lines: every other key without spaces
   reads as before, the block sits directly behind the root lines, and every line from the
   first table header on is kept.
   */
  lemma {:induction false} EnableFrame(bare: string, owner: Owner, u: string, c: string, key: string)
    requires WellMarked(owner) && '\n' !in u && '\n' !in c
    requires Lacks(key, ' ') && key != BASE_URL && key != CATALOG
    ensures var text := InsertBlock(bare, Block(owner, u, c));
            && RootAssignment(text, key) == RootAssignment(bare, key)
            && Split(text) == RootLines(bare) + Block(owner, u, c) + Split(bare)[|RootLines(bare)|..]
            && RootLines(text) == RootLines(bare) + Block(owner, u, c)
  {
    hide Split, FirstHeader, Assigned, Assignment, InsertBlock, IsHeader, IsSpace, RootAssignment;
    ManagedKeys();
    EnabledRoot(bare, owner, u, c, key);
    AssignmentOfOtherKey(CATALOG, c, key);
    InsertedLines(bare, owner, u, c);
    BlockHead(bare, owner, u);
    AssignmentNoHeader(CATALOG, c);
    MarkerLineAssignsNothing(owner.end, key);
    var lines := Split(bare);
    var k := FirstHeader(lines);
    var l1, l2 := Assignment(BASE_URL, u), Assignment(CATALOG, c);
    var a := lines[..k] + [owner.begin] + [l1];
    OneMore(a, l2);
    OneMore(a + [l2], owner.end);
    var text := InsertBlock(bare, Block(owner, u, c));
    assert Split(text) == a + [l2] + [owner.end] + lines[k..];
    assert a + [l2] + [owner.end] == lines[..k] + Block(owner, u, c);
    FirstHeaderAppend(a + [l2] + [owner.end], lines[k..]);
    HeaderFirst(lines, k);
    assert FirstHeader(lines[k..]) == 0;
  }

  /** One backslash is enough: neither key reads back what was written. */
  lemma {:induction false} BackslashExample()
    ensures var owner := ProductionOwner(); var value := "\\";
            && RootString(InsertBlock("", Block(owner, value, "")), BASE_URL) != Some(value)
            && RootString(InsertBlock("", Block(owner, "", value)), CATALOG) != Some(value)
  {
    hide WellMarked, ProductionOwner, RootString, InsertBlock, Block, RootAssignment;
    ProductionWellMarked();
    NothingAssigned(BASE_URL);
    NothingAssigned(CATALOG);
    assert "\\"[0] == '\\';
    BaseUrlReadsBack("", ProductionOwner(), "\\", "");
    CatalogReadsBack("", ProductionOwner(), "", "\\");
  }
}
