/**
 The string operations the relay's Go and Python code leans on, over `string`:
 searching, splitting into lines, trimming and the CRLF-to-LF replacement.
 Everything the other modules prove about text is built on the lemmas here.
 */
module Text {

  /** `strings.HasPrefix` with a prefix of one character. */
  predicate StartsWith(s: string, c: char) {
    s != "" && s[0] == c
  }

  // ----- Searching ---------------------------------------------------------

  predicate OccursAt(s: string, m: string, k: int) {
    0 <= k && k + |m| <= |s| && s[k..k + |m|] == m
  }

  lemma {:induction false} OccursBehindAt(s: string, m: string, k: int)
    requires s != "" && k >= -1
    ensures k >= 0 ==> (OccursAt(s, m, k + 1) <==> OccursAt(s[1..], m, k))
  {
    if 0 <= k && k + 1 + |m| <= |s| {
      assert s[1..][k..k + |m|] == s[k + 1..k + 1 + |m|];
    }
  }

  /** An occurrence behind the first character is one in the rest. */
  lemma {:induction false} OccursBehind(s: string, m: string)
    requires s != ""
    ensures forall k: int :: OccursAt(s, m, k) && k > 0 ==> OccursAt(s[1..], m, k - 1)
  {
    hide OccursAt;
    forall k: int | OccursAt(s, m, k) && k > 0
      ensures OccursAt(s[1..], m, k - 1)
    {
      OccursBehindAt(s, m, k - 1);
    }
  }

  /** `strings.Index`: the first position where `m` occurs in `s`, or -1. */
  function IndexOf(s: string, m: string): (r: int)
    ensures -1 <= r
    ensures r >= 0 ==> OccursAt(s, m, r)
    ensures forall k: int :: OccursAt(s, m, k) ==> 0 <= r <= k
  {
    if |s| < |m| then -1
    else if s[..|m|] == m then 0
    else if s == "" then -1
    else
      var r := IndexOf(s[1..], m);
      OccursBehind(s, m);
      OccursBehindAt(s, m, r);
      if r < 0 then -1 else r + 1
  }

  /** `strings.Contains`. */
  predicate Contains(s: string, m: string) {
    IndexOf(s, m) >= 0
  }

  lemma OccurrenceCovers(s: string, m: string, k: int, i: int)
    requires OccursAt(s, m, k) && k <= i < k + |m|
    ensures s[i] in m
  {
    assert s[i] == s[k..k + |m|][i - k];
  }

  /** An occurrence of `m` cannot cross a character that is not in `m`. */
  lemma OccursAcross(a: string, c: char, b: string, m: string, k: int)
    requires c !in m && m != ""
    requires OccursAt(a + [c] + b, m, k)
    ensures OccursAt(a, m, k) || OccursAt(b, m, k - |a| - 1)
  {
    var s := a + [c] + b;
    if k + |m| <= |a| {
      assert s[k..k + |m|] == a[k..k + |m|];
    } else if k > |a| {
      assert s[k..k + |m|] == b[k - |a| - 1..k - |a| - 1 + |m|];
    } else {
      OccurrenceCovers(s, m, k, |a|);
      assert false;
    }
  }

  /** Searching around a separator that is not part of the searched text. */
  lemma IndexOfAcross(a: string, c: char, b: string, m: string)
    requires c !in m && m != ""
    ensures IndexOf(a + [c] + b, m) ==
            if IndexOf(a, m) >= 0 then IndexOf(a, m)
            else if IndexOf(b, m) >= 0 then |a| + 1 + IndexOf(b, m)
            else -1
  {
    hide IndexOf;
    var s := a + [c] + b;
    forall k: int | OccursAt(s, m, k) ensures OccursAt(a, m, k) || OccursAt(b, m, k - |a| - 1) {
      OccursAcross(a, c, b, m, k);
    }
    var i, j := IndexOf(a, m), IndexOf(b, m);
    if i >= 0 {
      assert s[i..i + |m|] == a[i..i + |m|];
      assert OccursAt(s, m, i);
    } else if j >= 0 {
      assert s[|a| + 1 + j..|a| + 1 + j + |m|] == b[j..j + |m|];
      assert OccursAt(s, m, |a| + 1 + j);
    }
  }

  lemma ContainsAcross(a: string, c: char, b: string, m: string)
    requires c !in m && m != ""
    ensures Contains(a + [c] + b, m) <==> Contains(a, m) || Contains(b, m)
  {
    IndexOfAcross(a, c, b, m);
  }

  /** Text found in a part is found in the whole. */
  lemma ContainsPart(a: string, b: string, c: string, m: string)
    ensures Contains(b, m) ==> Contains(a + b + c, m)
  {
    hide IndexOf;
    var j := IndexOf(b, m);
    var s := a + b + c;
    if j >= 0 {
      assert s[|a| + j..|a| + j + |m|] == b[j..j + |m|];
      assert OccursAt(s, m, |a| + j);
    }
  }

  lemma {:induction false} OccursChars(s: string, m: string, i: int)
    ensures OccursAt(s, m, i) ==> forall j :: 0 <= j < |m| ==> m[j] == s[i + j]
  {
    if OccursAt(s, m, i) {
      assert forall j :: 0 <= j < |m| ==> m[j] == s[i..i + |m|][j];
    }
  }

  /** An occurrence in a prefix or in a suffix is one in the whole. */
  lemma {:induction false} OccursInPart(s: string, m: string, from: nat, to: nat, i: int)
    requires from <= to <= |s|
    ensures OccursAt(s[from..to], m, i) ==> OccursAt(s, m, from + i) && from + i + |m| <= to
  {
    if OccursAt(s[from..to], m, i) {
      OccursChars(s[from..to], m, i);
      assert forall j :: 0 <= j < |m| ==> s[from + i..from + i + |m|][j] == m[j];
    }
  }

  /** The last character in front of the seam belongs to a text cut by it. */
  lemma {:induction false} StraddleTouches(a: string, b: string, m: string, k: int)
    requires StraddlesAt(a, b, m, k)
    ensures m[k - 1] == a[|a| - 1]
  {
    assert m[..k][k - 1] == a[|a| - k..][k - 1];
  }

  /** `m` is cut in two by the seam between the texts, `k` of its characters in front. */
  predicate StraddlesAt(a: string, b: string, m: string, k: int) {
    0 < k < |m| && k <= |a| && |m| - k <= |b| && a[|a| - k..] == m[..k] && b[..|m| - k] == m[k..]
  }

  predicate Straddles(a: string, b: string, m: string) {
    exists k :: 0 < k < |m| && StraddlesAt(a, b, m, k)
  }

  /** Text is found in two joined texts exactly when it is in one of them or cut by the seam. */
  lemma {:induction false} ContainsJoined(a: string, b: string, m: string)
    requires m != ""
    ensures Contains(a + b, m) <==> Contains(a, m) || Contains(b, m) || Straddles(a, b, m)
  {
    hide IndexOf;
    assert a + b == "" + a + b && a + b == a + b + "";
    ContainsPart("", a, b, m);
    ContainsPart(a, b, "", m);
    if k :| 0 < k < |m| && StraddlesAt(a, b, m, k) {
      var i := |a| - k;
      assert (a + b)[i..i + |m|] == a[i..] + b[..|m| - k] == m[..k] + m[k..] == m;
      assert OccursAt(a + b, m, i);
    }
    var i := IndexOf(a + b, m);
    if i >= 0 {
      OccursJoined(a, b, m, i);
    }
  }

  lemma {:induction false} OccursJoined(a: string, b: string, m: string, i: int)
    requires m != "" && OccursAt(a + b, m, i)
    ensures OccursAt(a, m, i) || OccursAt(b, m, i - |a|) || Straddles(a, b, m)
  {
    var s := a + b;
    if i + |m| <= |a| {
      assert s[i..i + |m|] == a[i..i + |m|];
    } else if i >= |a| {
      assert s[i..i + |m|] == b[i - |a|..i - |a| + |m|];
    } else {
      var k := |a| - i;
      assert m[..k] == s[i..|a|] == a[i..];
      assert m[k..] == s[|a|..i + |m|] == b[..|m| - k];
      assert StraddlesAt(a, b, m, k);
    }
  }

  // ----- Lines -------------------------------------------------------------

  /** `strings.Split(s, "\n")`. */
  function Split(s: string): (lines: seq<string>)
    ensures |lines| >= 1
    ensures forall i :: 0 <= i < |lines| ==> '\n' !in lines[i]
    ensures Join(lines) == s
  {
    if s == "" then [""]
    else if s[0] == '\n' then
      var rest := Split(s[1..]);
      assert ([""] + rest)[1..] == rest;
      [""] + rest
    else
      var rest := Split(s[1..]);
      var lines := [[s[0]] + rest[0]] + rest[1..];
      assert lines[1..] == rest[1..];
      lines
  }

  /** `strings.Join(lines, "\n")`. */
  function Join(lines: seq<string>): (s: string)
    requires |lines| >= 1
  {
    if |lines| == 1 then lines[0] else lines[0] + "\n" + Join(lines[1..])
  }

  /** Splitting at the newlines undoes joining, for lines that hold none. */
  lemma {:induction false} SplitOfJoin(lines: seq<string>)
    requires |lines| >= 1
    requires forall i :: 0 <= i < |lines| ==> '\n' !in lines[i]
    ensures Split(Join(lines)) == lines
    decreases |lines|, |lines[0]|
  {
    if lines[0] == "" {
      if |lines| > 1 {
        assert Join(lines)[1..] == Join(lines[1..]);
        SplitOfJoin(lines[1..]);
      }
    } else {
      var shorter := [lines[0][1..]] + lines[1..];
      assert shorter[1..] == lines[1..];
      assert Join(lines)[1..] == Join(shorter);
      SplitOfJoin(shorter);
      assert Join(lines)[0] == lines[0][0];
      assert [lines[0][0]] + shorter[0] == lines[0];
      assert [[lines[0][0]] + shorter[0]] + shorter[1..] == lines;
    }
  }

  lemma {:induction false} JoinAppend(a: seq<string>, b: seq<string>)
    requires |a| >= 1 && |b| >= 1
    ensures Join(a + b) == Join(a) + "\n" + Join(b)
  {
    if |a| == 1 {
      assert (a + b)[1..] == b;
    } else {
      assert (a + b)[1..] == a[1..] + b;
      JoinAppend(a[1..], b);
    }
  }

  /** A newline-free text occurs in a joined text exactly when it occurs in one of the lines. */
  lemma {:induction false} ContainsJoin(lines: seq<string>, m: string)
    requires |lines| >= 1 && '\n' !in m && m != ""
    ensures Contains(Join(lines), m) <==> exists i :: 0 <= i < |lines| && Contains(lines[i], m)
  {
    if |lines| > 1 {
      ContainsAcross(lines[0], '\n', Join(lines[1..]), m);
      ContainsJoin(lines[1..], m);
      assert forall i :: 0 <= i < |lines[1..]| ==> lines[1..][i] == lines[i + 1];
      if i :| 1 <= i < |lines| && Contains(lines[i], m) {
        assert Contains(lines[1..][i - 1], m);
      }
    }
  }

  // ----- Trimming ----------------------------------------------------------

  /** The characters Go's `unicode.IsSpace` accepts. */
  predicate IsSpace(c: char) {
    || c == ' ' || c == '\t' || c == '\n' || c == '\r'
    || c == '\U{0B}' || c == '\U{0C}' || c == '\U{85}' || c == '\U{A0}'
    || c == '\U{1680}' || '\U{2000}' <= c <= '\U{200A}'
    || c == '\U{2028}' || c == '\U{2029}' || c == '\U{202F}' || c == '\U{205F}' || c == '\U{3000}'
  }

  function TrimLeft(s: string): string {
    if s != "" && IsSpace(s[0]) then TrimLeft(s[1..]) else s
  }

  function TrimRight(s: string): string {
    if s != "" && IsSpace(s[|s| - 1]) then TrimRight(s[..|s| - 1]) else s
  }

  /** `strings.TrimSpace`. */
  function Trim(s: string): string {
    TrimRight(TrimLeft(s))
  }

  /** Text that neither begins nor ends with white space is left alone. */
  lemma {:induction false} TrimIdentity(s: string)
    requires s != "" ==> !IsSpace(s[0]) && !IsSpace(s[|s| - 1])
    ensures Trim(s) == s
  {}

  /** One leading space goes. */
  lemma {:induction false} TrimOneSpace(s: string)
    requires s != "" && !IsSpace(s[0]) && !IsSpace(s[|s| - 1])
    ensures Trim(" " + s) == s
  {
    assert (" " + s)[1..] == s;
    assert TrimLeft(" " + s) == TrimLeft(s);
  }

  lemma {:induction false} TrimLeftAppendSpace(s: string, c: char)
    requires IsSpace(c)
    ensures TrimLeft(s + [c]) == if TrimLeft(s) == "" then "" else TrimLeft(s) + [c]
  {
    if s == "" {
      assert (s + [c])[1..] == "";
    } else if IsSpace(s[0]) {
      assert (s + [c])[1..] == s[1..] + [c];
      TrimLeftAppendSpace(s[1..], c);
    }
  }

  /** A trailing space does not matter. */
  lemma TrimAppendSpace(s: string, c: char)
    requires IsSpace(c)
    ensures Trim(s + [c]) == Trim(s)
  {
    TrimLeftAppendSpace(s, c);
    var t := TrimLeft(s);
    assert (t + [c])[..|t|] == t;
  }

  // ----- CRLF --------------------------------------------------------------

  /** `strings.ReplaceAll(s, "\r\n", "\n")`: drop each CR that is directly followed by an LF. */
  function Normalise(s: string): (r: string)
    ensures |r| <= |s|
  {
    if s == "" then ""
    else if s[0] == '\r' && |s| > 1 && s[1] == '\n' then Normalise(s[1..])
    else [s[0]] + Normalise(s[1..])
  }

  /** The replacement works on the two parts of a text unless the cut is inside a CRLF. */
  lemma {:induction false} NormaliseAppend(a: string, b: string)
    requires !(a != "" && a[|a| - 1] == '\r' && b != "" && b[0] == '\n')
    ensures Normalise(a + b) == Normalise(a) + Normalise(b)
  {
    if a == "" {
      assert a + b == b;
    } else {
      assert (a + b)[1..] == a[1..] + b;
      NormaliseAppend(a[1..], b);
    }
  }

  /** Text in which no CR is directly followed by an LF is not changed. */
  lemma {:induction false} NormaliseIdentity(s: string)
    requires forall i :: 0 <= i < |s| - 1 && s[i] == '\r' ==> s[i + 1] != '\n'
    ensures Normalise(s) == s
  {
    if s != "" {
      NormaliseIdentity(s[1..]);
    }
  }

  /** One step of `Split`. */
  lemma {:induction false} SplitStep(s: string)
    requires s != ""
    ensures var rest := Split(s[1..]);
            Split(s) == if s[0] == '\n' then [""] + rest else [[s[0]] + rest[0]] + rest[1..]
  {
    hide Join;
  }

  /** One step of `Normalise`. */
  lemma {:induction false} NormaliseStep(s: string)
    requires s != ""
    ensures Normalise(s) == if s[0] == '\r' && |s| > 1 && s[1] == '\n' then Normalise(s[1..])
                            else [s[0]] + Normalise(s[1..])
  {
  }

  /** Somewhere a CR stands in front of a CRLF. */
  predicate CrCrLf(s: string) {
    exists i :: 0 <= i < |s| - 2 && CrCrLfAt(s, i)
  }

  predicate CrCrLfAt(s: string, i: nat)
    requires i + 2 < |s|
  {
    s[i] == '\r' && s[i + 1] == '\r' && s[i + 2] == '\n'
  }

  lemma {:induction false} CrCrLfStep(s: string)
    requires s != ""
    ensures CrCrLf(s) <==> (|s| > 2 && CrCrLfAt(s, 0)) || CrCrLf(s[1..])
  {
    var t := s[1..];
    if i :| 0 <= i < |t| - 2 && CrCrLfAt(t, i) {
      assert CrCrLfAt(s, i + 1);
    }
    if i :| 0 < i < |s| - 2 && CrCrLfAt(s, i) {
      assert CrCrLfAt(t, i - 1);
    }
  }

  /** The replaced text begins with an LF exactly when the text begins with LF or CRLF. */
  lemma {:induction false} NormalisedFirst(t: string)
    ensures StartsWith(Normalise(t), '\n') <==> StartsWith(t, '\n') || "\r\n" <= t
  {
    hide Normalise;
    if t == "" {
      NormaliseIdentity(t);
    } else {
      NormaliseStep(t);
      if t[0] == '\r' && |t| > 1 && t[1] == '\n' {
        NormaliseStep(t[1..]);
      }
    }
  }

  /** Replacing a second time changes nothing if and only if no CR stands in front of a CRLF. */
  lemma {:induction false} NormaliseTwice(s: string)
    ensures Normalise(Normalise(s)) == Normalise(s) <==> !CrCrLf(s)
  {
    hide Normalise, CrCrLf;
    if s == "" {
      NormaliseIdentity(s);
      assert !CrCrLf(s) by { NoRoomForCrCrLf(s); }
    } else {
      var t := s[1..];
      NormaliseTwice(t);
      NormaliseStep(s);
      CrCrLfStep(s);
      NormalisedFirst(t);
      if !(s[0] == '\r' && |s| > 1 && s[1] == '\n') {
        assert Normalise(s)[1..] == Normalise(t);
        NormaliseStep(Normalise(s));
      }
    }
  }

  lemma {:induction false} NoRoomForCrCrLf(s: string)
    requires |s| < 3
    ensures !CrCrLf(s)
  {
  }

  /** The shortest text that is not finished after one replacement. */
  lemma {:induction false} NormaliseTwiceExample()
    ensures Normalise("\r\r\n") == "\r\n" && Normalise("\r\n") == "\n"
  {
    assert "\r\r\n"[1..] == "\r\n" && "\r\n"[1..] == "\n" && "\n"[1..] == "";
  }

  /** A line, or the line with a CR behind it. */
  predicate LosesCr(x: string, y: string) { x == y || x == y + "\r" }

  predicate LinesLoseCr(a: seq<string>, b: seq<string>) {
    |a| == |b| && forall i :: 0 <= i < |a| ==> LosesCr(a[i], b[i])
  }

  lemma {:induction false} LosesCrBehind(c: char, x: string, y: string)
    requires LosesCr(x, y)
    ensures LosesCr([c] + x, [c] + y)
  {
    assert [c] + (y + "\r") == [c] + y + "\r";
  }

  /** The replacement keeps the lines, except that a line may lose one trailing CR. */
  lemma {:induction false} NormaliseLines(s: string)
    ensures LinesLoseCr(Split(s), Split(Normalise(s)))
  {
    hide Split, Join, Normalise, LosesCr;
    if s == "" {
      assert Normalise(s) == "" by { NormaliseIdentity(s); }
      assert forall x :: LosesCr(x, x) by { SameLosesCr(); }
    } else {
      var t := s[1..];
      NormaliseLines(t);
      SplitStep(s);
      NormaliseStep(s);
      var a, b := Split(t), Split(Normalise(t));
      if s[0] == '\r' && |s| > 1 && s[1] == '\n' {
        SplitStep(t);
        assert a[0] == "" && ['\r'] + a[0] == "\r";
        assert LosesCr(a[0], b[0]);
        CrBeforeLf(b[0]);
        assert Split(s) == ["\r"] + a[1..];
      } else {
        assert Normalise(s)[1..] == Normalise(t);
        SplitStep(Normalise(s));
        if s[0] == '\n' {
          assert LosesCr("", "") by { SameLosesCr(); }
        } else {
          LosesCrBehind(s[0], a[0], b[0]);
        }
      }
    }
  }

  lemma {:induction false} SameLosesCr()
    ensures forall x :: LosesCr(x, x)
  {
  }

  lemma {:induction false} CrBeforeLf(y: string)
    requires LosesCr("", y)
    ensures y == "" && LosesCr("\r", y)
  {
    assert |y + "\r"| > 0;
    assert "" + "\r" == "\r";
  }

  /** So every line trims to the same text as before. */
  lemma NormaliseKeepsTrimmedLines(s: string)
    ensures var a, b := Split(s), Split(Normalise(s));
            |a| == |b| && forall i :: 0 <= i < |a| ==> Trim(a[i]) == Trim(b[i])
  {
    hide Split, Normalise, Trim;
    NormaliseLines(s);
    var a, b := Split(s), Split(Normalise(s));
    forall i | 0 <= i < |a|
      ensures Trim(a[i]) == Trim(b[i])
    {
      assert LosesCr(a[i], b[i]);
      TrimAppendSpace(b[i], '\r');
    }
  }

  lemma {:induction false} PrefixIsFirst(s: string, m: string)
    ensures m <= s <==> IndexOf(s, m) == 0
  {
  }

  lemma {:induction false} NothingBeforeStart(s: string)
    ensures |Normalise(s[..0])| == 0
  {
  }

  /** A text free of CR and LF is first found at the image of the place where it was first found. */
  lemma {:induction false} IndexOfNormalise(s: string, m: string)
    requires m != "" && '\r' !in m && '\n' !in m
    ensures var i := IndexOf(s, m);
            IndexOf(Normalise(s), m) == if i < 0 then -1 else |Normalise(s[..i])|
  {
    hide IndexOf, Normalise;
    PrefixIsFirst(s, m);
    PrefixIsFirst(Normalise(s), m);
    if s == "" {
      NormaliseIdentity(s);
    } else if IndexOf(s, m) == 0 {
      assert s[0] == m[0];
      NormaliseHead(s, m);
      NothingBeforeStart(s);
    } else {
      IndexOfNormalise(s[1..], m);
      IndexOfStep(s, m);
      if s[0] == '\r' && |s| > 1 && s[1] == '\n' {
        SearchPastCr(s, m);
      } else {
        SearchPastOther(s, m);
      }
    }
  }

  lemma {:induction false} SearchPastCr(s: string, m: string)
    requires m != "" && '\r' !in m && '\n' !in m && s != "" && IndexOf(s, m) != 0
    requires s[0] == '\r' && |s| > 1 && s[1] == '\n'
    ensures Normalise(s) == Normalise(s[1..])
    ensures var i := IndexOf(s[1..], m); i >= 0 ==> |Normalise(s[..i + 1])| == |Normalise(s[1..][..i])|
  {
    hide IndexOf, Normalise;
    NormaliseStep(s);
    var t := s[1..];
    var i := IndexOf(t, m);
    if i >= 0 {
      assert i > 0 by {
        assert t[0] == '\n' && m[0] == t[i..i + |m|][0];
      }
      assert s[..i + 1][1] == '\n' && s[..i + 1][1..] == t[..i];
      NormaliseStep(s[..i + 1]);
    }
  }

  lemma {:induction false} SearchPastOther(s: string, m: string)
    requires m != "" && '\r' !in m && '\n' !in m && s != "" && IndexOf(s, m) != 0
    requires !(s[0] == '\r' && |s| > 1 && s[1] == '\n')
    ensures var j := IndexOf(Normalise(s[1..]), m); IndexOf(Normalise(s), m) == if j < 0 then -1 else j + 1
    ensures var i := IndexOf(s[1..], m); i >= 0 ==> |Normalise(s[..i + 1])| == |Normalise(s[1..][..i])| + 1
  {
    hide IndexOf, Normalise;
    PrefixIsFirst(s, m);
    PrefixIsFirst(Normalise(s), m);
    NormaliseHead(s, m);
    NormaliseStep(s);
    assert Normalise(s)[1..] == Normalise(s[1..]);
    IndexOfStep(Normalise(s), m);
    var i := IndexOf(s[1..], m);
    if i >= 0 {
      assert s[..i + 1][1..] == s[1..][..i];
      NormaliseStep(s[..i + 1]);
    }
  }

  /** Searching past a first character at which there is no occurrence. */
  lemma IndexOfStep(s: string, m: string)
    requires s != "" && IndexOf(s, m) != 0
    ensures var j := IndexOf(s[1..], m); IndexOf(s, m) == if j < 0 then -1 else j + 1
  {}

  /** A text free of CR and LF is a prefix after the replacement exactly when it was before. */
  lemma {:induction false} NormaliseHead(s: string, m: string)
    requires '\r' !in m && '\n' !in m
    requires s != "" && !(s[0] == '\r' && |s| > 1 && s[1] == '\n')
    ensures m <= Normalise(s) <==> m <= s
  {
    if m != "" {
      assert Normalise(s) == [s[0]] + Normalise(s[1..]);
      if s[0] == m[0] && s[1..] != "" {
        var t := s[1..];
        if t[0] == '\r' && |t| > 1 && t[1] == '\n' {
          assert |m| > 1 ==> m[1] != '\r';
          assert Normalise(t)[0] == '\n';
          if |m| > 1 { assert !(m <= s); assert !(m <= Normalise(s)); }
        } else {
          NormaliseHead(t, m[1..]);
          assert m <= s <==> m[1..] <= t;
          assert m <= Normalise(s) <==> m[1..] <= Normalise(t);
        }
      }
    }
  }
}
