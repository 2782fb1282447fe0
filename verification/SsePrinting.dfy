/**
 Printing frames as an event stream and parsing them back. The meaning of a printed frame
 follows section 9.2.6 of the WHATWG HTML Standard ("Interpreting an event stream"): comments
 count for nothing, the last event field names the frame, data fields join with newlines.
 */
module SsePrinting {

  import opened Sse
  import opened Text
  import opened Wrappers

  datatype Ending = Lf | CrLf | Cr

  function EndingText(e: Ending): string {
    match e
    case Lf => "\n"
    case CrLf => "\r\n"
    case Cr => "\r"
  }

  /** A printed line; fields come with or without the optional space after the colon. */
  datatype Line =
    | Comment(text: string)
    | Event(name: string, space: bool)
    | Data(value: string, space: bool)
    | Other(field: string, rest: string)   // a field the parser does not know, with its colon and value or without

  function Spaced(space: bool, value: string): string {
    if space then " " + value else value
  }

  function LineText(l: Line): string {
    match l
    case Comment(text) => ":" + text
    case Event(name, space) => "event" + ":" + Spaced(space, name)
    case Data(value, space) => "data" + ":" + Spaced(space, value)
    case Other(field, rest) => field + rest
  }

  /** A value can be printed on one line, and without the space only if it does not begin with one. */
  predicate Printable(l: Line) {
    match l
    case Comment(text) => BreakFree(text)
    case Event(name, space) => BreakFree(name) && (StartsWith(name, ' ') ==> space)
    case Data(value, space) => BreakFree(value) && (StartsWith(value, ' ') ==> space)
    case Other(field, rest) =>
      && BreakFree(field) && BreakFree(rest) && ':' !in field && field !in {"", "event", "data"}
      && (rest != "" ==> rest[0] == ':')
  }

  /** The data of a frame: its data lines in order. */
  function DataOf(lines: seq<Line>): seq<string> {
    if lines == [] then []
    else DataOf(lines[..|lines| - 1]) + (if lines[|lines| - 1].Data? then [lines[|lines| - 1].value] else [])
  }

  /** The name of a frame: its last event line, or none. */
  function EventOf(lines: seq<Line>): string {
    if lines == [] then ""
    else if lines[|lines| - 1].Event? then lines[|lines| - 1].name
    else EventOf(lines[..|lines| - 1])
  }

  /** A block as the standard reads it: with data it is a frame, without it is nothing. */
  predicate Meaningful<P>(decode: string -> Decoded<P>, lines: seq<Line>) {
    && (forall i :: 0 <= i < |lines| ==> Printable(lines[i]))
    && (DataOf(lines) != [] ==> FrameOf(decode, EventOf(lines), DataOf(lines)).Ok?)
  }

  function Meaning<P>(decode: string -> Decoded<P>, lines: seq<Line>): seq<Frame<P>>
    requires Meaningful(decode, lines)
  {
    if DataOf(lines) == [] then [] else [FrameOf(decode, EventOf(lines), DataOf(lines)).value]
  }

  function Meanings<P>(decode: string -> Decoded<P>, doc: seq<seq<Line>>): seq<Frame<P>>
    requires forall i :: 0 <= i < |doc| ==> Meaningful(decode, doc[i])
  {
    if doc == [] then [] else Meaning(decode, doc[0]) + Meanings(decode, doc[1..])
  }

  predicate Comments(lines: seq<Line>) {
    forall i :: 0 <= i < |lines| ==> lines[i].Comment? && Printable(lines[i])
  }

  /** A frame as text lines: its own lines and the blank line that dispatches it. */
  function FrameLines(lines: seq<Line>): seq<string> {
    if lines == [] then [""] else [LineText(lines[0])] + FrameLines(lines[1..])
  }

  function DocLines(doc: seq<seq<Line>>): seq<string> {
    if doc == [] then [] else FrameLines(doc[0]) + DocLines(doc[1..])
  }

  function Terminate(lines: seq<string>, e: Ending): string {
    if lines == [] then "" else lines[0] + EndingText(e) + Terminate(lines[1..], e)
  }

  /** The printed stream: blocks, and comments behind the last one. */
  function Print(doc: seq<seq<Line>>, tail: seq<Line>, e: Ending): string {
    Terminate(DocLines(doc) + LineTexts(tail), e)
  }

  /** The texts of some lines. */
  function LineTexts(lines: seq<Line>): (r: seq<string>)
    ensures |r| == |lines| && forall i :: 0 <= i < |lines| ==> r[i] == LineText(lines[i])
  {
    if lines == [] then [] else [LineText(lines[0])] + LineTexts(lines[1..])
  }

  // ----- Splitting a printed stream ---------------------------------------------

  predicate AllBreakFree(lines: seq<string>) {
    forall i :: 0 <= i < |lines| ==> BreakFree(lines[i])
  }

  /** One step of both replacements. */
  lemma {:induction false} UnifyStep(s: string)
    requires s != ""
    ensures Unify(s) == if s[0] == '\r' && |s| > 1 && s[1] == '\n' then Unify(s[1..])
                        else [if s[0] == '\r' then '\n' else s[0]] + Unify(s[1..])
  {
    hide Normalise;
    NormaliseStep(s);
    var n := Normalise(s[1..]);
    assert ([s[0]] + n)[1..] == n;
  }

  lemma {:induction false} UnifyEnding(e: Ending, rest: string)
    requires e == Cr ==> !StartsWith(rest, '\n')
    ensures Unify(EndingText(e) + rest) == "\n" + Unify(rest)
  {
    hide Unify;
    var s := EndingText(e) + rest;
    UnifyStep(s);
    match e
    case Lf => assert s[1..] == rest;
    case Cr => assert s[1..] == rest;
    case CrLf =>
      assert s[1..] == "\n" + rest;
      UnifyStep("\n" + rest);
      assert ("\n" + rest)[1..] == rest;
  }

  lemma {:induction false} UnifyLine(line: string, e: Ending, rest: string)
    requires BreakFree(line) && (e == Cr ==> !StartsWith(rest, '\n'))
    ensures Unify(line + EndingText(e) + rest) == line + "\n" + Unify(rest)
  {
    hide Unify, EndingText;
    if line == "" {
      assert line + EndingText(e) + rest == EndingText(e) + rest;
      UnifyEnding(e, rest);
      assert line + "\n" + Unify(rest) == "\n" + Unify(rest);
    } else {
      var s := line + EndingText(e) + rest;
      assert s[0] == line[0] && !IsBreak(line[0]);
      assert s[1..] == line[1..] + EndingText(e) + rest;
      UnifyStep(s);
      UnifyLine(line[1..], e, rest);
      assert [line[0]] + (line[1..] + "\n" + Unify(rest)) == line + "\n" + Unify(rest);
    }
  }

  /** Whatever the line ending, the unified text ends its lines with LF. */
  lemma {:induction false} UnifyTerminated(lines: seq<string>, e: Ending)
    requires AllBreakFree(lines)
    ensures Unify(Terminate(lines, e)) == Terminate(lines, Lf)
  {
    hide Unify;
    if lines == [] {
      UnifyNothing();
    } else {
      var rest := Terminate(lines[1..], e);
      UnifyTerminated(lines[1..], e);
      if e == Cr { NoLeadingLf(lines[1..]); }
      UnifyLine(lines[0], e, rest);
    }
  }

  lemma {:induction false} UnifyNothing()
    ensures Unify("") == ""
  {}

  lemma {:induction false} NoLeadingLf(lines: seq<string>)
    requires AllBreakFree(lines)
    ensures !StartsWith(Terminate(lines, Cr), '\n')
  {
    if lines != [] && lines[0] != "" {
      assert !IsBreak(lines[0][0]);
      assert Terminate(lines, Cr)[0] == lines[0][0];
    } else if lines != [] {
      assert Terminate(lines, Cr)[0] == '\r';
    }
  }

  lemma {:induction false} FirstLine(line: string, rest: string)
    requires BreakFree(line)
    ensures LineEnd(line + "\n" + rest) == |line| + 1
  {
    var s := line + "\n" + rest;
    if line != "" {
      assert !IsBreak(line[0]);
      assert s[1..] == line[1..] + "\n" + rest;
      FirstLine(line[1..], rest);
    }
  }

  /** The lines come back, in both modes. */
  lemma {:induction false} UsableTerminated(lines: seq<string>, partial: bool)
    requires AllBreakFree(lines)
    ensures Usable(SplitLines(Terminate(lines, Lf)), partial) == lines
  {
    hide SplitLines, Usable;
    if lines == [] {
      UsableNothing(partial);
    } else {
      UsableTerminated(lines[1..], partial);
      UsableStep(lines[0], Terminate(lines[1..], Lf), partial);
      assert lines == [lines[0]] + lines[1..];
    }
  }

  lemma {:induction false} UsableNothing(partial: bool)
    ensures Usable(SplitLines(""), partial) == []
  {}

  lemma {:induction false} UsableStep(line: string, rest: string, partial: bool)
    requires BreakFree(line)
    ensures Usable(SplitLines(line + "\n" + rest), partial) == [line] + Usable(SplitLines(rest), partial)
  {
    hide IsBreak, LineEnd;
    var s := line + "\n" + rest;
    var n := |line| + 1;
    FirstLine(line, rest);
    assert s[..n] == line + "\n" && s[n..] == rest;
    var raw := [line + "\n"] + SplitLines(rest);
    assert SplitLines(s) == raw;
    assert raw[1..] == SplitLines(rest);
    assert (line + "\n")[..n - 1] == line;
  }

  // ----- Feeding a printed frame ---------------------------------------------------

  lemma {:induction false} FieldOfLine(name: string, space: bool, value: string)
    requires ':' !in name && (StartsWith(value, ' ') ==> space)
    ensures var line := name + ":" + Spaced(space, value);
            FieldName(line) == name && FieldValue(line) == value
  {
    hide IndexOf;
    var rest := Spaced(space, value);
    var line := name + ":" + rest;
    assert OccursAt(line, ":", |name|) by { assert line[|name|..|name| + 1] == ":"; }
    assert forall j: int :: OccursAt(line, ":", j) ==> |name| <= j by {
      forall j: int | OccursAt(line, ":", j) ensures |name| <= j {
        assert line[j..j + 1][0] == line[j];
      }
    }
    assert line[..|name|] == name;
    assert line[|name| + 1..] == rest;
    if space { assert rest[1..] == value; }
  }

  /** What one printed line does to the parser. */
  lemma {:induction false} FeedPrinted<P>(decode: string -> Decoded<P>, p: Parser<P>, l: Line)
    requires Printable(l)
    ensures FeedLine(decode, p, LineText(l)) ==
            match l
            case Comment(_) => Ok(p)
            case Event(name, _) => Ok(p.(event := name))
            case Data(value, _) => Ok(p.(data := p.data + [value]))
            case Other(_, _) => Ok(p)
  {
    hide FieldName, FieldValue, FrameOf;
    match l
    case Comment(text) =>
    case Event(name, space) =>
      FieldOfLine("event", space, name);
      assert LineText(l)[0] == 'e';
    case Data(value, space) =>
      FieldOfLine("data", space, value);
      assert LineText(l)[0] == 'd';
    case Other(field, rest) =>
      OtherField(field, rest);
      assert LineText(l)[0] == field[0];
  }

  lemma {:induction false} OtherField(field: string, rest: string)
    requires ':' !in field && (rest != "" ==> rest[0] == ':')
    ensures FieldName(field + rest) == field
  {
    hide IndexOf;
    var line := field + rest;
    assert forall j: int :: OccursAt(line, ":", j) ==> |field| <= j by {
      forall j: int | OccursAt(line, ":", j) ensures |field| <= j {
        assert line[j..j + 1][0] == line[j];
      }
    }
    if rest == "" {
      assert line == field;
    } else {
      assert OccursAt(line, ":", |field|) by { assert line[|field|..|field| + 1] == ":"; }
      assert line[..|field|] == field;
    }
  }

  lemma {:induction false} FeedAppend<P>(decode: string -> Decoded<P>, p: Parser<P>, a: seq<string>, b: seq<string>)
    requires Feed(decode, p, a).Ok?
    ensures Feed(decode, p, a + b) == Feed(decode, Feed(decode, p, a).value, b)
    decreases |a|
  {
    hide FeedLine;
    if a == [] {
      assert a + b == b;
    } else {
      assert (a + b)[1..] == a[1..] + b;
      FeedAppend(decode, FeedLine(decode, p, a[0]).value, a[1..], b);
    }
  }

  lemma {:induction false} FrameLinesSplit(lines: seq<Line>)
    ensures FrameLines(lines) == LineTexts(lines) + [""]
  {
    hide LineText;
    if lines != [] { FrameLinesSplit(lines[1..]); }
  }

  /** After the lines of a frame the parser holds its event name and its data. */
  lemma {:induction false} FeedTexts<P>(decode: string -> Decoded<P>, frames: seq<Frame<P>>, lines: seq<Line>)
    requires forall i :: 0 <= i < |lines| ==> Printable(lines[i])
    ensures Feed(decode, Parser("", [], frames), LineTexts(lines)) == Ok(Parser(EventOf(lines), DataOf(lines), frames))
    decreases |lines|
  {
    hide FeedLine, Printable, LineText, Feed;
    if lines == [] {
      FeedNothing(decode, Parser("", [], frames));
    } else {
      hide LineTexts, EventOf, DataOf;
      var init, last := lines[..|lines| - 1], lines[|lines| - 1];
      FeedTexts(decode, frames, init);
      LineTextsSnoc(lines);
      FeedMore(decode, Parser("", [], frames), LineTexts(init), Parser(EventOf(init), DataOf(init), frames), last);
      LastLine(lines);
    }
  }

  lemma {:induction false} LineTextsSnoc(lines: seq<Line>)
    requires lines != []
    ensures LineTexts(lines) == LineTexts(lines[..|lines| - 1]) + [LineText(lines[|lines| - 1])]
  {
    hide LineText, LineTexts;
  }

  lemma {:induction false} FeedMore<P>(decode: string -> Decoded<P>, start: Parser<P>, texts: seq<string>,
      p: Parser<P>, last: Line)
    requires Feed(decode, start, texts) == Ok(p) && Printable(last)
    ensures Feed(decode, start, texts + [LineText(last)]) ==
            match last
            case Comment(_) => Ok(p)
            case Event(name, _) => Ok(p.(event := name))
            case Data(value, _) => Ok(p.(data := p.data + [value]))
            case Other(_, _) => Ok(p)
  {
    hide FeedLine, Printable, LineText, Feed;
    FeedAppend(decode, start, texts, [LineText(last)]);
    FeedPrinted(decode, p, last);
    FeedOne(decode, p, LineText(last));
  }

  lemma {:induction false} LastLine(lines: seq<Line>)
    requires lines != []
    ensures var init, last := lines[..|lines| - 1], lines[|lines| - 1];
            match last
            case Comment(_) => EventOf(lines) == EventOf(init) && DataOf(lines) == DataOf(init)
            case Event(name, _) => EventOf(lines) == name && DataOf(lines) == DataOf(init)
            case Data(value, _) => EventOf(lines) == EventOf(init) && DataOf(lines) == DataOf(init) + [value]
            case Other(_, _) => EventOf(lines) == EventOf(init) && DataOf(lines) == DataOf(init)
  {
  }

  lemma {:induction false} FeedNothing<P>(decode: string -> Decoded<P>, p: Parser<P>)
    ensures Feed(decode, p, []) == Ok(p)
  {}

  lemma {:induction false} FeedOne<P>(decode: string -> Decoded<P>, p: Parser<P>, line: string)
    ensures Feed(decode, p, [line]) == FeedLine(decode, p, line)
  {
    hide FeedLine;
    assert [line][1..] == [];
    var r := FeedLine(decode, p, line);
    if r.Ok? { assert Feed(decode, r.value, []) == r; }
  }

  lemma {:induction false} FeedFrame<P>(decode: string -> Decoded<P>, frames: seq<Frame<P>>, lines: seq<Line>)
    requires Meaningful(decode, lines)
    ensures Feed(decode, Parser("", [], frames), FrameLines(lines)) ==
            Ok(Parser("", [], frames + Meaning(decode, lines)))
  {
    hide LineText, Printable, FrameOf, Feed;
    FrameLinesSplit(lines);
    FeedTexts(decode, frames, lines);
    FeedAppend(decode, Parser("", [], frames), LineTexts(lines), [""]);
    FeedOne(decode, Parser(EventOf(lines), DataOf(lines), frames), "");
    assert frames + [] == frames;
  }

  lemma {:induction false} FeedDoc<P>(decode: string -> Decoded<P>, frames: seq<Frame<P>>, doc: seq<seq<Line>>)
    requires forall i :: 0 <= i < |doc| ==> Meaningful(decode, doc[i])
    ensures Feed(decode, Parser("", [], frames), DocLines(doc)) == Ok(Parser("", [], frames + Meanings(decode, doc)))
    decreases |doc|
  {
    hide Meaningful, Meaning, FrameLines, FeedLine;
    if doc == [] {
      assert frames + [] == frames;
    } else {
      FeedFrame(decode, frames, doc[0]);
      FeedAppend(decode, Parser("", [], frames), FrameLines(doc[0]), DocLines(doc[1..]));
      FeedDoc(decode, frames + Meaning(decode, doc[0]), doc[1..]);
      assert frames + Meaning(decode, doc[0]) + Meanings(decode, doc[1..]) == frames + Meanings(decode, doc);
    }
  }

  lemma {:induction false} CommentsSayNothing(tail: seq<Line>)
    requires Comments(tail)
    ensures EventOf(tail) == "" && DataOf(tail) == []
  {
    hide Printable;
    if tail != [] {
      CommentsSayNothing(tail[..|tail| - 1]);
    }
  }

  lemma {:induction false} TailBreakFree(tail: seq<Line>)
    requires forall i :: 0 <= i < |tail| ==> Printable(tail[i])
    ensures AllBreakFree(LineTexts(tail))
  {
    hide BreakFree, Printable, LineText;
    forall i | 0 <= i < |tail|
      ensures BreakFree(LineTexts(tail)[i])
    {
      LineBreakFree(tail[i]);
    }
  }

  lemma {:induction false} FrameLinesBreakFree(lines: seq<Line>)
    requires forall i :: 0 <= i < |lines| ==> Printable(lines[i])
    ensures AllBreakFree(FrameLines(lines))
  {
    if lines != [] {
      FrameLinesBreakFree(lines[1..]);
      LineBreakFree(lines[0]);
    }
  }

  lemma {:induction false} LineBreakFree(l: Line)
    requires Printable(l)
    ensures BreakFree(LineText(l))
  {}

  lemma {:induction false} DocBreakFree<P>(decode: string -> Decoded<P>, doc: seq<seq<Line>>)
    requires forall i :: 0 <= i < |doc| ==> Meaningful(decode, doc[i])
    ensures AllBreakFree(DocLines(doc))
  {
    hide FrameLines, BreakFree, FrameOf;
    if doc != [] {
      FrameLinesBreakFree(doc[0]);
      DocBreakFree(decode, doc[1..]);
    }
  }

  /**
   Round trip: printing any list of meaningful blocks with one uniform line ending, with
   comments and optional spaces wherever one likes, and parsing it gives their frames, in
   strict and in partial mode alike.
   */
  lemma {:induction false} PrintedStreamParses<P>(decode: string -> Decoded<P>, doc: seq<seq<Line>>, tail: seq<Line>,
                                                  e: Ending, partial: bool)
    requires (forall i :: 0 <= i < |doc| ==> Meaningful(decode, doc[i])) && Comments(tail)
    ensures ParseFrames(decode, Print(doc, tail, e), partial) == Ok(Meanings(decode, doc))
  {
    hide Meaningful, Meanings, DocLines, Terminate, Unify, Usable, SplitLines, Feed, BreakFree, LineTexts;
    var lines := DocLines(doc) + LineTexts(tail);
    DocBreakFree(decode, doc);
    TailBreakFree(tail);
    UnifyTerminated(lines, e);
    UsableTerminated(lines, partial);
    FeedDoc(decode, [], doc);
    assert [] + Meanings(decode, doc) == Meanings(decode, doc);
    FeedAppend(decode, Parser("", [], []), DocLines(doc), LineTexts(tail));
    FeedTexts(decode, Meanings(decode, doc), tail);
    CommentsSayNothing(tail);
  }

  /** So a partial parse of any part of a printed stream gives a prefix of the printed frames. */
  lemma {:induction false} CutStreamParses<P>(decode: string -> Decoded<P>, doc: seq<seq<Line>>, tail: seq<Line>,
                                              e: Ending, n: nat)
    requires (forall i :: 0 <= i < |doc| ==> Meaningful(decode, doc[i])) && Comments(tail)
    requires n <= |Print(doc, tail, e)|
    ensures ParseFrames(decode, Print(doc, tail, e)[..n], true).Ok?
    ensures IsPrefix(ParseFrames(decode, Print(doc, tail, e)[..n], true).value, Meanings(decode, doc))
  {
    hide Meaningful, Meanings, Print, ParseFrames;
    PrintedStreamParses(decode, doc, tail, e, true);
    PartialIsPrefixMonotone(decode, Print(doc, tail, e), n);
  }

  // ----- Starting from frames ---------------------------------------------------

  /** The lines spell this typed frame: its JSON in data lines, and its type as event name or none. */
  ghost predicate Spells<P>(decode: string -> Decoded<P>, lines: seq<Line>, frame: Frame<P>) {
    && (forall i :: 0 <= i < |lines| ==> Printable(lines[i]))
    && DataOf(lines) != [] && Join(DataOf(lines)) != "[DONE]"
    && decode(Join(DataOf(lines))) == Object(Typed(frame.kind), frame.payload) && frame.kind != ""
    && (EventOf(lines) == "" || EventOf(lines) == frame.kind)
  }

  /** The blocks spell the frames in order, with comment blocks anywhere between them. */
  ghost predicate SpellsAll<P>(decode: string -> Decoded<P>, doc: seq<seq<Line>>, frames: seq<Frame<P>>) {
    if doc == [] then frames == []
    else if Comments(doc[0]) then SpellsAll(decode, doc[1..], frames)
    else frames != [] && Spells(decode, doc[0], frames[0]) && SpellsAll(decode, doc[1..], frames[1..])
  }

  lemma {:induction false} SpelledMeans<P>(decode: string -> Decoded<P>, doc: seq<seq<Line>>, frames: seq<Frame<P>>)
    requires SpellsAll(decode, doc, frames)
    ensures forall i :: 0 <= i < |doc| ==> Meaningful(decode, doc[i])
    ensures Meanings(decode, doc) == frames
  {
    hide Printable, DataOf, EventOf;
    if doc != [] {
      if Comments(doc[0]) {
        CommentsSayNothing(doc[0]);
        SpelledMeans(decode, doc[1..], frames);
        assert [] + frames == frames;
      } else {
        SpelledMeans(decode, doc[1..], frames[1..]);
        assert [frames[0]] + frames[1..] == frames;
      }
      assert forall i :: 0 < i < |doc| ==> doc[i] == doc[1..][i - 1];
    }
  }

  /**
   Printing typed frames and parsing the stream gives exactly those frames, whatever the line
   ending, the comments, the optional spaces and the mode.
   */
  lemma {:induction false} PrintedFramesParse<P>(decode: string -> Decoded<P>, frames: seq<Frame<P>>,
                                                 doc: seq<seq<Line>>, tail: seq<Line>, e: Ending, partial: bool)
    requires SpellsAll(decode, doc, frames) && Comments(tail)
    ensures ParseFrames(decode, Print(doc, tail, e), partial) == Ok(frames)
  {
    hide SpellsAll, Meaningful, Meanings, Print, ParseFrames, Comments;
    SpelledMeans(decode, doc, frames);
    PrintedStreamParses(decode, doc, tail, e, partial);
  }
}
