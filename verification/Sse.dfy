/**
 The SSE capture parser (`pilot/scripts/validate-responses-sse.py`), in its strict and its
 partial mode. JSON decoding is a parameter: what a data block decodes to, if anything.
 */
module Sse {

  import opened Text
  import opened Wrappers

  datatype SseError = DoneFrame | NotJson | NotAnObject | TypeNotString | TypeMismatch | NoType | Incomplete

  datatype TypeField = Missing | NotString | Typed(name: string)

  /** What `json.loads` makes of a data block, as far as the parser looks at it. */
  datatype Decoded<+P> = Garbage | NonObject | Object(typ: TypeField, payload: P)

  datatype Frame<+P> = Frame(kind: string, payload: P)

  /** The three variables the line loop updates. */
  datatype Parser<+P> = Parser(event: string, data: seq<string>, frames: seq<Frame<P>>)

  // ----- Lines ----------------------------------------------------------------

  /** The characters at which Python's `str.splitlines` ends a line. */
  predicate IsBreak(c: char) {
    || c == '\n' || c == '\r' || c == '\U{0B}' || c == '\U{0C}' || c == '\U{1C}' || c == '\U{1D}' || c == '\U{1E}'
    || c == '\U{85}' || c == '\U{2028}' || c == '\U{2029}'
  }

  predicate BreakFree(s: string) {
    forall i :: 0 <= i < |s| ==> !IsBreak(s[i])
  }

  /** `replace("\r", "\n")`. */
  function CrToLf(s: string): string {
    if s == "" then "" else [if s[0] == '\r' then '\n' else s[0]] + CrToLf(s[1..])
  }

  /** Both replacements the parser makes before it splits. */
  function Unify(s: string): string {
    CrToLf(Normalise(s))
  }

  /** The length of the first line including its break, or of all of `s` if it holds none. */
  function LineEnd(s: string): (n: nat)
    requires s != ""
    ensures 1 <= n <= |s|
    ensures BreakFree(s[..n - 1])
    ensures n < |s| ==> IsBreak(s[n - 1])
  {
    if IsBreak(s[0]) || |s| == 1 then 1
    else
      var n := LineEnd(s[1..]);
      assert s[..n] == [s[0]] + s[1..][..n - 1];
      1 + n
  }

  /** `splitlines(keepends=True)`. */
  function SplitLines(s: string): seq<string> {
    if s == "" then [] else [s[..LineEnd(s)]] + SplitLines(s[LineEnd(s)..])
  }

  predicate Complete(raw: string) {
    raw != "" && raw[|raw| - 1] == '\n'
  }

  // ----- The parser -----------------------------------------------------------

  /** `dispatch`, on a non-empty data block: the frame it appends, or the error it raises. */
  function FrameOf<P>(decode: string -> Decoded<P>, event: string, data: seq<string>): Result<Frame<P>, SseError>
    requires data != []
  {
    var text := Join(data);
    if text == "[DONE]" then Err(DoneFrame)
    else
      match decode(text)
      case Garbage => Err(NotJson)
      case NonObject => Err(NotAnObject)
      case Object(typ, payload) =>
        match typ
        case NotString => Err(TypeNotString)
        case Missing => if event == "" then Err(NoType) else Ok(Frame(event, payload))
        case Typed(name) =>
          if event != "" && name != "" && event != name then Err(TypeMismatch)
          else
            var kind := if name != "" then name else event;
            if kind == "" then Err(NoType) else Ok(Frame(kind, payload))
  }

  function Dispatch<P>(decode: string -> Decoded<P>, p: Parser<P>): Result<Parser<P>, SseError> {
    if p.data == [] then Ok(p.(event := ""))
    else
      match FrameOf(decode, p.event, p.data)
      case Err(e) => Err(e)
      case Ok(frame) => Ok(Parser("", [], p.frames + [frame]))
  }

  /** `line.partition(":")`: the field, and the value without one leading space. */
  function FieldName(line: string): string {
    var i := IndexOf(line, ":");
    if i < 0 then line else line[..i]
  }

  function FieldValue(line: string): string {
    var i := IndexOf(line, ":");
    if i < 0 then ""
    else
      var value := line[i + 1..];
      if StartsWith(value, ' ') then value[1..] else value
  }

  /** One line without its newline. */
  function FeedLine<P>(decode: string -> Decoded<P>, p: Parser<P>, line: string): Result<Parser<P>, SseError> {
    if line == "" then Dispatch(decode, p)
    else if StartsWith(line, ':') then Ok(p)
    else if FieldName(line) == "event" then Ok(p.(event := FieldValue(line)))
    else if FieldName(line) == "data" then Ok(p.(data := p.data + [FieldValue(line)]))
    else Ok(p)
  }

  function Feed<P>(decode: string -> Decoded<P>, p: Parser<P>, lines: seq<string>): Result<Parser<P>, SseError>
    decreases |lines|
  {
    if lines == [] then Ok(p)
    else
      match FeedLine(decode, p, lines[0])
      case Err(e) => Err(e)
      case Ok(next) => Feed(decode, next, lines[1..])
  }

  /** The lines the loop processes: in partial mode it stops at the first incomplete one. */
  function Usable(raw: seq<string>, partial: bool): seq<string> {
    if raw == [] then []
    else if Complete(raw[0]) then [raw[0][..|raw[0]| - 1]] + Usable(raw[1..], partial)
    else if partial then []
    else [raw[0]] + Usable(raw[1..], partial)
  }

  /** `parse_frames`. */
  function ParseFrames<P>(decode: string -> Decoded<P>, text: string, partial: bool): Result<seq<Frame<P>>, SseError> {
    match Feed(decode, Parser("", [], []), Usable(SplitLines(Unify(text)), partial))
    case Err(e) => Err(e)
    case Ok(p) => if !partial && (p.event != "" || p.data != []) then Err(Incomplete) else Ok(p.frames)
  }

  /** `parse_frames` as the source runs it, line by line. */
  method Parse<P>(decode: string -> Decoded<P>, text: string, partial: bool)
      returns (r: Result<seq<Frame<P>>, SseError>)
    ensures r == ParseFrames(decode, text, partial)
  {
    hide Unify, SplitLines, FieldName, FieldValue, FrameOf;
    var rawLines := SplitLines(Unify(text));
    var p := Parser("", [], []);
    assert rawLines[0..] == rawLines;
    var index := 0;
    while index < |rawLines|
      invariant index <= |rawLines|
      invariant Feed(decode, Parser("", [], []), Usable(rawLines, partial)) ==
        Feed(decode, p, Usable(rawLines[index..], partial))
    {
      var raw := rawLines[index];
      assert rawLines[index..][1..] == rawLines[index + 1..];
      var complete := Complete(raw);
      var line := if complete then raw[..|raw| - 1] else raw;
      if !complete && partial {
        break;
      }
      ghost var rest := Usable(rawLines[index + 1..], partial);
      assert Usable(rawLines[index..], partial) == [line] + rest;
      assert ([line] + rest)[1..] == rest;
      if line == "" {
        var dispatched := Dispatch(decode, p);
        if dispatched.Err? {
          return Err(dispatched.error);
        }
        p := dispatched.value;
      } else if !StartsWith(line, ':') {
        var field, value := FieldName(line), FieldValue(line);
        if field == "event" {
          p := p.(event := value);
        } else if field == "data" {
          p := p.(data := p.data + [value]);
        }
      }
      index := index + 1;
    }
    assert Usable(rawLines[index..], partial) == [] by {
      if index == |rawLines| { assert rawLines[index..] == []; }
    }
    if p.event != "" || p.data != [] {
      if partial {
        return Ok(p.frames);
      }
      return Err(Incomplete);
    }
    r := Ok(p.frames);
  }

  // ----- Prefixes ---------------------------------------------------------------

  predicate IsPrefix<T(==)>(a: seq<T>, b: seq<T>) {
    |a| <= |b| && b[..|a|] == a
  }

  lemma {:induction false} UnifyPrefix(s: string, n: nat)
    requires n <= |s|
    ensures IsPrefix(Unify(s[..n]), Unify(s))
  {
    if n > 0 {
      var p, t := s[..n], s[1..];
      assert p[1..] == t[..n - 1];
      UnifyPrefix(t, n - 1);
      if s[0] == '\r' && |s| > 1 && s[1] == '\n' {
        if n == 1 {
          assert p == "\r";
          assert Normalise("\r") == "\r" + Normalise("");
          assert Normalise(t)[0] == '\n';
          assert Unify(s)[0] == '\n';
          assert Unify(p) == "\n";
        }
      } else {
        UnifyHead(s);
        UnifyHead(p);
      }
    }
  }

  lemma {:induction false} UnifyHead(s: string)
    requires s != "" && !(s[0] == '\r' && |s| > 1 && s[1] == '\n')
    ensures Unify(s) == [if s[0] == '\r' then '\n' else s[0]] + Unify(s[1..])
  {
    assert Normalise(s)[1..] == Normalise(s[1..]);
  }

  lemma {:induction false} SplitPrefix(u: string, v: string)
    requires IsPrefix(u, v)
    ensures IsPrefix(Usable(SplitLines(u), true), Usable(SplitLines(v), true))
    decreases |u|
  {
    if u != "" {
      var n := LineEnd(u);
      LineEndPrefix(u, v);
      if IsBreak(u[n - 1]) {
        assert v[..n] == u[..n] by { assert v[..|u|][..n] == v[..n]; }
        assert IsPrefix(u[n..], v[n..]) by { assert v[n..][..|u| - n] == v[..|u|][n..]; }
        SplitPrefix(u[n..], v[n..]);
        UsableHead(u);
        UsableHead(v);
      } else {
        assert !Complete(u[..n]);
        UsableHead(u);
      }
    }
  }

  /** What the first line contributes in partial mode. */
  lemma {:induction false} UsableHead(s: string)
    requires s != ""
    ensures var n := LineEnd(s); var line := s[..n];
            Usable(SplitLines(s), true) ==
            if Complete(line) then [line[..n - 1]] + Usable(SplitLines(s[n..]), true) else []
  {
    var n := LineEnd(s);
    assert SplitLines(s)[0] == s[..n];
    assert SplitLines(s)[1..] == SplitLines(s[n..]);
  }

  /** A line that ends inside a prefix ends at the same place in the whole. */
  lemma {:induction false} LineEndPrefix(u: string, v: string)
    requires u != "" && IsPrefix(u, v)
    ensures IsBreak(u[LineEnd(u) - 1]) ==> LineEnd(v) == LineEnd(u)
  {
    hide IsBreak;
    assert u[0] == v[0];
    if |u| > 1 && !IsBreak(u[0]) {
      assert v[1..][..|u| - 1] == v[..|u|][1..];
      LineEndPrefix(u[1..], v[1..]);
    }
  }

  /** Feeding fewer lines gives fewer frames, and no error that feeding all would not give. */
  lemma {:induction false} FeedPrefix<P>(decode: string -> Decoded<P>, p: Parser<P>, lines: seq<string>, n: nat)
    requires n <= |lines| && Feed(decode, p, lines).Ok?
    ensures Feed(decode, p, lines[..n]).Ok?
    ensures IsPrefix(p.frames, Feed(decode, p, lines[..n]).value.frames)
    ensures IsPrefix(Feed(decode, p, lines[..n]).value.frames, Feed(decode, p, lines).value.frames)
    decreases |lines|
  {
    hide FeedLine;
    if n == 0 {
      FeedGrows(decode, p, lines);
    } else {
      var next := FeedLine(decode, p, lines[0]).value;
      FeedLineGrows(decode, p, lines[0]);
      assert lines[..n][1..] == lines[1..][..n - 1];
      FeedPrefix(decode, next, lines[1..], n - 1);
      PrefixTransitive(p.frames, next.frames, Feed(decode, p, lines[..n]).value.frames);
    }
  }

  lemma {:induction false} FeedLineGrows<P>(decode: string -> Decoded<P>, p: Parser<P>, line: string)
    requires FeedLine(decode, p, line).Ok?
    ensures IsPrefix(p.frames, FeedLine(decode, p, line).value.frames)
  {
    hide FieldName, FieldValue, FrameOf;
  }

  lemma {:induction false} FeedGrows<P>(decode: string -> Decoded<P>, p: Parser<P>, lines: seq<string>)
    requires Feed(decode, p, lines).Ok?
    ensures IsPrefix(p.frames, Feed(decode, p, lines).value.frames)
    decreases |lines|
  {
    hide FeedLine;
    if lines != [] {
      var next := FeedLine(decode, p, lines[0]).value;
      FeedLineGrows(decode, p, lines[0]);
      FeedGrows(decode, next, lines[1..]);
      PrefixTransitive(p.frames, next.frames, Feed(decode, next, lines[1..]).value.frames);
    }
  }

  lemma {:induction false} PrefixTransitive<T>(a: seq<T>, b: seq<T>, c: seq<T>)
    requires IsPrefix(a, b) && IsPrefix(b, c)
    ensures IsPrefix(a, c)
  {
    assert c[..|a|] == c[..|b|][..|a|];
  }

  /**
   Partial parsing is prefix-monotone: if a capture parses in partial mode, every shorter
   capture, wherever it is cut, parses without error to a prefix of its frames.
   */
  lemma {:induction false} PartialIsPrefixMonotone<P>(decode: string -> Decoded<P>, text: string, n: nat)
    requires n <= |text| && ParseFrames(decode, text, true).Ok?
    ensures ParseFrames(decode, text[..n], true).Ok?
    ensures IsPrefix(ParseFrames(decode, text[..n], true).value, ParseFrames(decode, text, true).value)
  {
    hide Unify, SplitLines, Feed, Usable;
    UnifyPrefix(text, n);
    SplitPrefix(Unify(text[..n]), Unify(text));
    var lines := Usable(SplitLines(Unify(text)), true);
    var shorter := Usable(SplitLines(Unify(text[..n])), true);
    assert shorter == lines[..|shorter|];
    FeedPrefix(decode, Parser("", [], []), lines, |shorter|);
  }

  predicate HasEvent<P>(frames: seq<Frame<P>>, event: string) {
    exists i :: 0 <= i < |frames| && frames[i].kind == event
  }

  /** A positive `has-event` is not retracted by a longer capture that still parses. */
  lemma {:induction false} HasEventIsStable<P>(decode: string -> Decoded<P>, text: string, n: nat, event: string)
    requires n <= |text| && ParseFrames(decode, text, true).Ok? && ParseFrames(decode, text[..n], true).Ok?
    requires HasEvent(ParseFrames(decode, text[..n], true).value, event)
    ensures HasEvent(ParseFrames(decode, text, true).value, event)
  {
    hide ParseFrames;
    PartialIsPrefixMonotone(decode, text, n);
    var few, all := ParseFrames(decode, text[..n], true).value, ParseFrames(decode, text, true).value;
    var i :| 0 <= i < |few| && few[i].kind == event;
    assert all[..|few|][i] == all[i];
  }
}
