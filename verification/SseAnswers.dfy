/**
 What the SSE parser answers when not everything is well: the exact error of a block, that the
 first bad block decides, and what strict mode adds to partial mode.
 */
module SseAnswers {

  import opened Sse
  import opened SsePrinting
  import opened Text
  import opened Wrappers

  /** The type an object carries, with a missing one and an empty one alike. */
  function TypeName(typ: TypeField): string {
    if typ.Typed? then typ.name else ""
  }

  /** Each answer about one block with data, exactly. */
  lemma {:induction false} BlockAnswers<P>(decode: string -> Decoded<P>, event: string, data: seq<string>)
    requires data != []
    ensures var r := FrameOf(decode, event, data); var text := Join(data); var d := decode(text);
            var done := text == "[DONE]";
            && (r == Err(DoneFrame) <==> done)
            && (r == Err(NotJson) <==> !done && d.Garbage?)
            && (r == Err(NotAnObject) <==> !done && d.NonObject?)
            && (r == Err(TypeNotString) <==> !done && d.Object? && d.typ.NotString?)
            && (r == Err(TypeMismatch) <==>
                  && !done && d.Object? && !d.typ.NotString?
                  && event != "" && TypeName(d.typ) != "" && event != TypeName(d.typ))
            && (r == Err(NoType) <==> !done && d.Object? && !d.typ.NotString? && event == "" && TypeName(d.typ) == "")
            && r != Err(Incomplete)
            && (r.Ok? ==>
                  && r.value.payload == d.payload && r.value.kind != ""
                  && r.value.kind in {event, TypeName(d.typ)})
  {
    hide Join;
  }

  predicate AllPrintable(lines: seq<Line>) {
    forall i :: 0 <= i < |lines| ==> Printable(lines[i])
  }

  /** Parsing is feeding the printed lines, in either mode. */
  lemma {:induction false} ParsePrinted<P>(decode: string -> Decoded<P>, lines: seq<string>, e: Ending, partial: bool)
    requires AllBreakFree(lines)
    ensures var fed := Feed(decode, Parser("", [], []), lines);
            ParseFrames(decode, Terminate(lines, e), partial) ==
            if fed.Err? then Err(fed.error)
            else if !partial && (fed.value.event != "" || fed.value.data != []) then Err(Incomplete)
            else Ok(fed.value.frames)
  {
    hide Unify, Usable, SplitLines, Feed, BreakFree, Terminate;
    UnifyTerminated(lines, e);
    UsableTerminated(lines, partial);
  }

  /**
   Whatever lines stand behind the last blank one, partial mode gives the frames of the blocks in
   front of them; strict mode gives the same if those lines name no event and hold no data, and
   otherwise says that the stream is incomplete.
   */
  lemma {:induction false} TailDecides<P>(decode: string -> Decoded<P>, doc: seq<seq<Line>>, tail: seq<Line>, e: Ending)
    requires (forall i :: 0 <= i < |doc| ==> Meaningful(decode, doc[i])) && AllPrintable(tail)
    ensures ParseFrames(decode, Print(doc, tail, e), true) == Ok(Meanings(decode, doc))
    ensures ParseFrames(decode, Print(doc, tail, e), false) ==
            if EventOf(tail) == "" && DataOf(tail) == [] then Ok(Meanings(decode, doc)) else Err(Incomplete)
  {
    hide Meaningful, Meanings, DocLines, Terminate, Feed, BreakFree, LineTexts, ParseFrames, Printable, EventOf, DataOf;
    var lines := DocLines(doc) + LineTexts(tail);
    DocBreakFree(decode, doc);
    TailBreakFree(tail);
    ParsePrinted(decode, lines, e, true);
    ParsePrinted(decode, lines, e, false);
    FeedDoc(decode, [], doc);
    assert [] + Meanings(decode, doc) == Meanings(decode, doc);
    FeedAppend(decode, Parser("", [], []), DocLines(doc), LineTexts(tail));
    FeedTexts(decode, Meanings(decode, doc), tail);
  }

  /** The first block that is no frame decides, whatever follows it. */
  lemma {:induction false} FirstErrorWins<P>(decode: string -> Decoded<P>, doc: seq<seq<Line>>, bad: seq<Line>,
                                             more: seq<string>, e: Ending, partial: bool)
    requires (forall i :: 0 <= i < |doc| ==> Meaningful(decode, doc[i])) && AllBreakFree(more)
    requires AllPrintable(bad) && DataOf(bad) != [] && FrameOf(decode, EventOf(bad), DataOf(bad)).Err?
    ensures ParseFrames(decode, Terminate(DocLines(doc) + (FrameLines(bad) + more), e), partial) ==
            Err(FrameOf(decode, EventOf(bad), DataOf(bad)).error)
  {
    hide Meaningful, Meanings, DocLines, Terminate, Feed, BreakFree, FrameLines, ParseFrames, Printable, EventOf,
      DataOf, FrameOf;
    var lines := DocLines(doc) + (FrameLines(bad) + more);
    DocBreakFree(decode, doc);
    FrameLinesBreakFree(bad);
    ParsePrinted(decode, lines, e, partial);
    FeedDoc(decode, [], doc);
    FeedAppend(decode, Parser("", [], []), DocLines(doc), FrameLines(bad) + more);
    BadBlockFails(decode, [] + Meanings(decode, doc), bad, more);
  }

  lemma {:induction false} BadBlockFails<P>(decode: string -> Decoded<P>, frames: seq<Frame<P>>, bad: seq<Line>,
                                            more: seq<string>)
    requires AllPrintable(bad) && DataOf(bad) != [] && FrameOf(decode, EventOf(bad), DataOf(bad)).Err?
    ensures Feed(decode, Parser("", [], frames), FrameLines(bad) + more) ==
            Err(FrameOf(decode, EventOf(bad), DataOf(bad)).error)
  {
    hide Feed, Printable, EventOf, DataOf, FrameOf, LineTexts, FrameLines;
    FrameLinesSplit(bad);
    assert FrameLines(bad) + more == LineTexts(bad) + ([""] + more);
    FeedTexts(decode, frames, bad);
    FeedAppend(decode, Parser("", [], frames), LineTexts(bad), [""] + more);
    BlankFails(decode, Parser(EventOf(bad), DataOf(bad), frames), more);
  }

  lemma {:induction false} BlankFails<P>(decode: string -> Decoded<P>, p: Parser<P>, more: seq<string>)
    requires p.data != [] && FrameOf(decode, p.event, p.data).Err?
    ensures Feed(decode, p, [""] + more) == Err(FrameOf(decode, p.event, p.data).error)
  {
    hide FrameOf;
  }

  // ----- Any text -----------------------------------------------------------------------

  ghost predicate AllComplete(raw: seq<string>) {
    forall i :: 0 <= i < |raw| ==> Complete(raw[i])
  }

  lemma {:induction false} SameUsable(raw: seq<string>)
    requires AllComplete(raw)
    ensures Usable(raw, true) == Usable(raw, false)
  {
    if raw != [] {
      SameUsable(raw[1..]);
    }
  }

  /** For any text of complete lines the two modes agree, except that strict mode may find it incomplete. */
  lemma {:induction false} StrictOrIncomplete<P>(decode: string -> Decoded<P>, text: string)
    requires AllComplete(SplitLines(Unify(text)))
    ensures var strict, partial := ParseFrames(decode, text, false), ParseFrames(decode, text, true);
            strict == partial || (partial.Ok? && strict == Err(Incomplete))
  {
    hide Unify, SplitLines, Feed, Usable;
    SameUsable(SplitLines(Unify(text)));
  }
}
