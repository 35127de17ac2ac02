/** The parser against the standard: section 9.2.6 of the WHATWG HTML Living Standard. */
module SseStandard {
  import opened SseStream

  // ----- the standard's parse -----

  /** A dispatched message; ids and reconnection times are not part of this model. */
  datatype Message = Message(kind: string, data: string)

  /** The standard's two buffers, and the messages dispatched so far. */
  datatype Buffers = Buffers(data: string, kind: string, messages: seq<Message>)

  datatype Cut = NoEnd | Cut(line: string, rest: string)

  /** A line ends at a carriage return and newline pair, a newline, or a carriage return. */
  function FirstLine(text: string): (c: Cut)
    ensures c.Cut? ==> |c.rest| < |text|
  {
    if text == "" then NoEnd
    else if text[0] == '\n' then Cut("", text[1..])
    else if text[0] == '\r' then Cut("", if |text| > 1 && text[1] == '\n' then text[2..] else text[1..])
    else
      match FirstLine(text[1..])
      case NoEnd => NoEnd
      case Cut(line, rest) => Cut([text[0]] + line, rest)
  }

  function Dispatch(b: Buffers): Buffers {
    Buffers("", "", if b.data == "" then b.messages
                    else b.messages + [Message(if b.kind == "" then "message" else b.kind, b.data[..|b.data| - 1])])
  }

  /** The characters before the first colon. */
  function FieldName(line: string): string {
    if line == "" || line[0] == ':' then "" else [line[0]] + FieldName(line[1..])
  }

  /** The characters after the first colon. */
  function AfterColon(line: string): string {
    if line == "" then "" else if line[0] == ':' then line[1..] else AfterColon(line[1..])
  }

  /** The same without one leading space. */
  function FieldValue(line: string): string {
    var v := AfterColon(line);
    if |v| > 0 && v[0] == ' ' then v[1..] else v
  }

  function Interpret(b: Buffers, line: string): Buffers {
    if line == "" then Dispatch(b)
    else if line[0] == ':' then b
    else if FieldName(line) == "event" then b.(kind := FieldValue(line))
    else if FieldName(line) == "data" then b.(data := b.data + FieldValue(line) + "\n")
    else b
  }

  /** The code reads a field as the standard does. */
  lemma SameField(line: string)
    ensures ParseField(line) == Field(FieldName(line), FieldValue(line))
  {
    hide FieldName, AfterColon, IndexOf;
    CutAtColon(line);
  }

  lemma ColonLater(c: char, tail: string)
    requires c != ':'
    ensures FieldName([c] + tail) == [c] + FieldName(tail) && AfterColon([c] + tail) == AfterColon(tail)
    ensures IndexOf([c] + tail, ':') == if IndexOf(tail, ':') == -1 then -1 else IndexOf(tail, ':') + 1
  {
    assert ([c] + tail)[1..] == tail;
  }

  lemma {:induction false} CutAtColon(line: string)
    ensures var k := IndexOf(line, ':');
      if k == -1 then FieldName(line) == line && AfterColon(line) == ""
      else FieldName(line) == line[..k] && AfterColon(line) == line[k + 1..]
  {
    if line == "" || line[0] == ':' {
      assert line != "" ==> line[..0] == "";
    } else {
      var c, tail := line[0], line[1..];
      assert line == [c] + tail;
      ColonLater(c, tail);
      hide FieldName, AfterColon, IndexOf;
      CutAtColon(tail);
      var k := IndexOf(tail, ':');
      if k != -1 {
        assert ([c] + tail)[..k + 1] == [c] + tail[..k] && ([c] + tail)[k + 2..] == tail[k + 1..];
      }
    }
  }

  function Standard(b: Buffers, text: string): Buffers
    decreases |text|
  {
    match FirstLine(text)
    case NoEnd => b
    case Cut(line, rest) => Standard(Interpret(b, line), rest)
  }

  /** The messages of a whole text; what is pending at the end is discarded. */
  function StandardParse(text: string): seq<Message> {
    Standard(Buffers("", "", []), text).messages
  }

  // ----- the two side by side -----

  /** An event as a message: one without a name is a "message". */
  function AsMessage(e: Event): Message {
    Message(if e.name.GetOr("") == "" then "message" else e.name.value, e.data)
  }

  function AsMessages(events: seq<Event>): (ms: seq<Message>)
    ensures |ms| == |events|
    ensures forall k :: 0 <= k < |events| ==> ms[k] == AsMessage(events[k])
  {
    seq(|events|, k requires 0 <= k < |events| => AsMessage(events[k]))
  }

  /** No carriage return stands before a character other than a newline. */
  predicate Paired(text: string) {
    forall k :: 0 <= k < |text| - 1 && text[k] == '\r' ==> text[k + 1] == '\n'
  }

  /** Every blank line, also one that ends the text, closes nothing or an event with data; at the end nothing is open. */
  predicate Plain(p: Parser, text: string)
    decreases |text|
  {
    var k := IndexOf(text, '\n');
    if k == -1 then (if text == "" then Idle(p) else !Hollow(p, text) && Idle(ProcessLine(p, text)))
    else !Hollow(p, text[..k]) && Plain(ProcessLine(p, text[..k]), text[k + 1..])
  }

  /** The line closes an event that has a name and no data. */
  predicate Hollow(p: Parser, rawLine: string) {
    StripTrailingCR(rawLine) == "" && p.dataLines == [] && p.name.Some?
  }

  function DataBuffer(dataLines: seq<string>): string {
    if dataLines == [] then "" else Join(dataLines) + "\n"
  }

  /** Same pending event; never more messages than events, and the same ones if as many. */
  ghost predicate SideBySide(p: Parser, b: Buffers) {
    && b.data == DataBuffer(p.dataLines) && b.kind == p.name.GetOr("")
    && |b.messages| <= |p.events|
    && (|b.messages| == |p.events| ==> b.messages == AsMessages(p.events))
  }

  lemma MessagesAppend(events: seq<Event>, e: Event)
    ensures AsMessages(events + [e]) == AsMessages(events) + [AsMessage(e)]
  {
  }

  lemma BlankLine(p: Parser, b: Buffers)
    requires SideBySide(p, b)
    ensures SideBySide(Flush(p), Dispatch(b))
    ensures |Dispatch(b).messages| == |Flush(p).events| <==>
      |b.messages| == |p.events| && !(p.dataLines == [] && p.name.Some?)
  {
    var e := Event(p.name, Join(p.dataLines));
    MessagesAppend(p.events, e);
    if p.dataLines != [] {
      assert b.data[..|b.data| - 1] == Join(p.dataLines);
    }
  }

  lemma DataLines(lines: seq<string>, value: string)
    ensures DataBuffer(lines + [value]) == DataBuffer(lines) + value + "\n"
  {
    assert (lines + [value])[..|lines|] == lines;
  }

  lemma LineStep(p: Parser, b: Buffers, rawLine: string)
    requires SideBySide(p, b)
    ensures var p', b' := ProcessLine(p, rawLine), Interpret(b, StripTrailingCR(rawLine));
      && SideBySide(p', b')
      && (|b'.messages| == |p'.events| <==> |b.messages| == |p.events| && !Hollow(p, rawLine))
  {
    hide ParseField, Flush, Dispatch, DataBuffer, FieldName, FieldValue;
    var line := StripTrailingCR(rawLine);
    SameField(line);
    if line == "" {
      BlankLine(p, b);
    } else if line[0] != ':' {
      DataLines(p.dataLines, ParseField(line).value);
    }
  }

  /** One more character in front of a line that the rest of the text has. */
  lemma CutFront(c: char, tail: string, k: nat)
    requires c != '\r' && k < |tail|
    ensures var text := [c] + tail;
      StripTrailingCR(text[..k + 1]) == [c] + StripTrailingCR(tail[..k]) && text[k + 2..] == tail[k + 1..]
  {
    var text := [c] + tail;
    assert text[..k + 1] == [c] + tail[..k];
  }

  lemma IndexFront(c: char, tail: string, x: char)
    ensures IndexOf([c] + tail, x) ==
      if c == x then 0 else if IndexOf(tail, x) == -1 then -1 else IndexOf(tail, x) + 1
  {
    assert ([c] + tail)[1..] == tail;
  }

  lemma FirstLineFront(c: char, tail: string)
    requires c != '\r' && c != '\n'
    ensures FirstLine([c] + tail) == match FirstLine(tail)
      case NoEnd => NoEnd
      case Cut(line, rest) => Cut([c] + line, rest)
  {
    assert ([c] + tail)[1..] == tail;
  }

  /** Where every carriage return is paired, the standard's first line is the code's; one at the very end ends a line. */
  lemma {:induction false} SameFirstLine(text: string)
    requires Paired(text)
    ensures var k := IndexOf(text, '\n');
      FirstLine(text) ==
        if k != -1 then Cut(StripTrailingCR(text[..k]), text[k + 1..])
        else if StripTrailingCR(text) != text then Cut(StripTrailingCR(text), "")
        else NoEnd
  {
    if text == "" || text[0] == '\n' || text[0] == '\r' {
      LineEndsAtOnce(text);
    } else {
      hide StripTrailingCR, Paired, FirstLine, IndexOf;
      var tail, k := text[1..], IndexOf(text[1..], '\n');
      assert text == [text[0]] + tail;
      PairedTail(text, 1);
      SameFirstLine(tail);
      IndexFront(text[0], tail, '\n');
      FirstLineFront(text[0], tail);
      StripFront(text[0], tail);
      if k != -1 {
        CutFront(text[0], tail, k);
      }
    }
  }

  lemma LineEndsAtOnce(text: string)
    requires Paired(text) && (text == "" || text[0] == '\n' || text[0] == '\r')
    ensures var k := IndexOf(text, '\n');
      FirstLine(text) ==
        if k != -1 then Cut(StripTrailingCR(text[..k]), text[k + 1..])
        else if StripTrailingCR(text) != text then Cut(StripTrailingCR(text), "")
        else NoEnd
  {
    hide IndexOf, Paired;
    if text != "" && text[0] == '\n' {
      assert text == ['\n'] + text[1..];
      IndexFront('\n', text[1..], '\n');
      assert text[..0] == "";
    } else if |text| > 1 {
      ReturnAndNewline(text);
      assert text[..1] == "\r";
    } else if text != "" {
      assert '\n' !in text;
    }
  }

  lemma ReturnAndNewline(text: string)
    requires Paired(text) && |text| > 1 && text[0] == '\r'
    ensures text[1] == '\n' && IndexOf(text, '\n') == 1
  {
    hide IndexOf;
    assert text[1] == '\n';
    assert text == ['\r'] + text[1..] && text[1..] == ['\n'] + text[2..];
    IndexFront('\r', text[1..], '\n');
    IndexFront('\n', text[2..], '\n');
  }

  lemma StripFront(c: char, tail: string)
    requires c != '\r'
    ensures StripTrailingCR([c] + tail) == [c] + StripTrailingCR(tail)
    ensures StripTrailingCR([c] + tail) == [c] + tail <==> StripTrailingCR(tail) == tail
  {
    assert tail != "" ==> ([c] + tail)[..|tail|] == [c] + tail[..|tail| - 1];
  }

  lemma PairedTail(text: string, k: nat)
    requires Paired(text) && k <= |text|
    ensures Paired(text[k..])
  {
    assert forall j :: 0 <= j < |text| - k ==> text[k..][j] == text[k + j];
  }

  /** The parser after all lines of the text. */
  function ReadText(p: Parser, text: string): Parser {
    var q := Complete(p, text);
    if Rest(text) == "" then q else ProcessLine(q, Rest(text))
  }

  /** The code's events from some state on: those of all lines, and what is left open. */
  function Ended(p: Parser, text: string): seq<Event> {
    Flush(ReadText(p, text)).events
  }

  lemma NothingLeft()
    ensures FirstLine("") == NoEnd
  {
  }

  lemma LastLine(p: Parser, b: Buffers, text: string)
    requires SideBySide(p, b) && Paired(text) && '\n' !in text
    ensures var events, messages := Ended(p, text), Standard(b, text).messages;
      && |messages| <= |events|
      && (|messages| == |events| <==> |b.messages| == |p.events| && Plain(p, text))
      && (|messages| == |events| ==> messages == AsMessages(events))
  {
    hide ProcessLine, Complete, Rest, Interpret, FirstLine, Paired, Hollow, StripTrailingCR, DataBuffer;
    NoLine(p, text);
    SameFirstLine(text);
    NothingLeft();
    if text != "" {
      LineStep(p, b, text);
      if StripTrailingCR(text) == text {
        UnfinishedLine(b, text);
      }
    }
  }

  /** A last line the standard leaves unread would have closed nothing. */
  lemma UnfinishedLine(b: Buffers, text: string)
    requires text != "" && StripTrailingCR(text) == text
    ensures Interpret(b, text).messages == b.messages
  {
  }

  lemma {:induction false} TextsSideBySide(p: Parser, b: Buffers, text: string)
    requires SideBySide(p, b) && Paired(text)
    ensures var events, messages := Ended(p, text), Standard(b, text).messages;
      && |messages| <= |events|
      && (|messages| == |events| <==> |b.messages| == |p.events| && Plain(p, text))
      && (|messages| == |events| ==> messages == AsMessages(events))
    decreases |text|
  {
    hide ProcessLine, Complete, Rest, IndexOf, Interpret, SideBySide, Flush, FirstLine, Paired, Hollow;
    var k := IndexOf(text, '\n');
    SameFirstLine(text);
    if k == -1 {
      LastLine(p, b, text);
    } else {
      OneLine(p, text);
      LineStep(p, b, text[..k]);
      PairedTail(text, k + 1);
      TextsSideBySide(ProcessLine(p, text[..k]), Interpret(b, StripTrailingCR(text[..k])), text[k + 1..]);
    }
  }

  /**
   * On texts without a carriage return before another character than a newline, the code's events
   * are the standard's messages exactly if no event is closed with a name but no data and none is
   * left open at the end; otherwise the code has more.
   */
  lemma {:induction false} AgreesWithStandardExactly(text: string)
    requires Paired(text)
    ensures AsMessages(Parse(text)) == StandardParse(text) <==> Plain(FRESH, text)
    ensures !Plain(FRESH, text) ==> |Parse(text)| > |StandardParse(text)|
  {
    hide Complete, Rest, Standard, Plain;
    TextsSideBySide(FRESH, Buffers("", "", []), text);
  }

  // ----- the standard with the code's two liberties -----

  /** The standard's buffers, and whether an event field has come. */
  datatype Liberal = Liberal(buffers: Buffers, named: bool)

  /** A blank line also dispatches an event that has a name and no data. */
  function DispatchNamed(l: Liberal): Liberal {
    var b := l.buffers;
    if b.data == "" && l.named then
      Liberal(Buffers("", "", b.messages + [Message(if b.kind == "" then "message" else b.kind, "")]), false)
    else Liberal(Dispatch(b), false)
  }

  function InterpretLiberally(l: Liberal, line: string): Liberal {
    if line == "" then DispatchNamed(l)
    else Liberal(Interpret(l.buffers, line), l.named || (FieldName(line) == "event" && line[0] != ':'))
  }

  function ReadLines(l: Liberal, lines: seq<string>): Liberal
    decreases |lines|
  {
    if lines == [] then l else ReadLines(InterpretLiberally(l, lines[0]), lines[1..])
  }

  /** All lines, an unfinished one included, and the end of the text dispatches what is open. */
  function LiberalParse(text: string): seq<Message> {
    DispatchNamed(ReadLines(Liberal(Buffers("", "", []), false), StandardLines(text))).buffers.messages
  }

  /** The same pending event and the same messages. */
  ghost predicate InStep(p: Parser, l: Liberal) {
    && l.buffers.data == DataBuffer(p.dataLines) && l.buffers.kind == p.name.GetOr("") && l.named == p.name.Some?
    && l.buffers.messages == AsMessages(p.events)
  }

  lemma FlushInStep(p: Parser, l: Liberal)
    requires InStep(p, l)
    ensures InStep(Flush(p), DispatchNamed(l))
  {
    MessagesAppend(p.events, Event(p.name, Join(p.dataLines)));
    if p.dataLines != [] {
      assert l.buffers.data[..|l.buffers.data| - 1] == Join(p.dataLines);
    }
  }

  lemma LineInStep(p: Parser, l: Liberal, rawLine: string)
    requires InStep(p, l)
    ensures InStep(ProcessLine(p, rawLine), InterpretLiberally(l, StripTrailingCR(rawLine)))
  {
    hide ParseField, Flush, Dispatch, DataBuffer, FieldName, FieldValue, AsMessages, DispatchNamed;
    var line := StripTrailingCR(rawLine);
    if line == "" {
      FlushInStep(p, l);
    } else if line[0] == ':' {
      CommentChangesNothing(l, line);
    } else {
      SameField(line);
      DataLines(p.dataLines, ParseField(line).value);
    }
  }

  lemma CommentChangesNothing(l: Liberal, line: string)
    requires line != "" && line[0] == ':'
    ensures InterpretLiberally(l, line) == l
  {
  }

  lemma {:induction false} TextInStep(p: Parser, l: Liberal, text: string)
    requires InStep(p, l)
    ensures InStep(ReadText(p, text), ReadLines(l, CodeLines(text)))
    decreases |text|
  {
    hide ProcessLine, InterpretLiberally, Complete, Rest, IndexOf, CodeLines, InStep, StripTrailingCR, Flush;
    var k := IndexOf(text, '\n');
    CodeLinesStep(text);
    if k == -1 {
      NoLine(p, text);
      if text != "" {
        LineInStep(p, l, text);
        assert [StripTrailingCR(text)][1..] == [];
      }
    } else {
      var line := StripTrailingCR(text[..k]);
      OneLine(p, text);
      LineInStep(p, l, text[..k]);
      TextInStep(ProcessLine(p, text[..k]), InterpretLiberally(l, line), text[k + 1..]);
      assert ([line] + CodeLines(text[k + 1..]))[1..] == CodeLines(text[k + 1..]);
    }
  }

  /**
   * The code is the standard with two liberties and no other: on every text without a carriage
   * return before another character than a newline its events are the standard's messages, were
   * a named event without data dispatched and the end of the text a blank line.
   */
  lemma {:induction false} TwoLibertiesExactly(text: string)
    requires Paired(text)
    ensures AsMessages(Parse(text)) == LiberalParse(text)
  {
    hide ReadText, CodeLines, StandardLines, ReadLines, Paired, Flush, DispatchNamed;
    var start := Liberal(Buffers("", "", []), false);
    TextInStep(FRESH, start, text);
    LinesAgreeExactly(text);
    ParseIsEnded(text);
    FlushInStep(ReadText(FRESH, text), ReadLines(start, CodeLines(text)));
  }

  lemma ParseIsEnded(text: string)
    ensures Parse(text) == Ended(FRESH, text)
  {
  }

  // ----- lines -----

  /** The lines the code reads, each without a carriage return at its end; the last one may be unfinished. */
  function CodeLines(text: string): seq<string> {
    Stripped(Pieces(Lines(text)))
  }

  function Stripped(lines: seq<string>): (r: seq<string>)
    ensures |r| == |lines|
  {
    seq(|lines|, k requires 0 <= k < |lines| => StripTrailingCR(lines[k]))
  }

  /** The standard's lines; the last one may be unfinished. */
  function StandardLines(text: string): seq<string>
    decreases |text|
  {
    match FirstLine(text)
    case NoEnd => if text == "" then [] else [text]
    case Cut(line, rest) => [line] + StandardLines(rest)
  }

  /** How many carriage returns stand before a character other than a newline. */
  function LoneReturns(text: string): nat {
    if text == "" then 0
    else (if text[0] == '\r' && |text| > 1 && text[1] != '\n' then 1 else 0) + LoneReturns(text[1..])
  }

  lemma {:induction false} LoneReturnsMeaning(text: string)
    ensures LoneReturns(text) == 0 <==> Paired(text)
  {
    if text != "" {
      var tail := text[1..];
      LoneReturnsMeaning(tail);
      assert forall k :: 0 <= k < |tail| ==> tail[k] == text[k + 1];
    }
  }

  lemma StrippedCons(line: string, lines: seq<string>)
    ensures Stripped([line] + lines) == [StripTrailingCR(line)] + Stripped(lines)
  {
  }

  /** The pieces that are lines: all but an empty last one. */
  function Pieces(ls: seq<string>): seq<string>
    requires ls != []
  {
    if ls[|ls| - 1] == "" then ls[..|ls| - 1] else ls
  }

  lemma PiecesCons(line: string, ls: seq<string>)
    requires ls != []
    ensures Pieces([line] + ls) == [line] + Pieces(ls)
  {
    var all := [line] + ls;
    assert all[|all| - 1] == ls[|ls| - 1];
    assert all[..|all| - 1] == [line] + ls[..|ls| - 1];
  }

  lemma LinesStep(text: string)
    ensures var k := IndexOf(text, '\n');
      Lines(text) == if k == -1 then [text] else [text[..k]] + Lines(text[k + 1..])
  {
    hide IndexOf;
  }

  lemma CodeLinesStep(text: string)
    ensures var k := IndexOf(text, '\n');
      CodeLines(text) ==
        if k != -1 then [StripTrailingCR(text[..k])] + CodeLines(text[k + 1..])
        else if text == "" then [] else [StripTrailingCR(text)]
  {
    hide StripTrailingCR, Pieces, Stripped, Lines, IndexOf;
    var k := IndexOf(text, '\n');
    LinesStep(text);
    if k != -1 {
      PiecesCons(text[..k], Lines(text[k + 1..]));
      StrippedCons(text[..k], Pieces(Lines(text[k + 1..])));
    } else {
      OneCodeLine(text);
    }
  }

  lemma OneCodeLine(text: string)
    ensures Stripped(Pieces([text])) == if text == "" then [] else [StripTrailingCR(text)]
  {
    hide StripTrailingCR;
  }

  lemma {:induction false} CodeLinesFront(c: char, tail: string)
    ensures |CodeLines([c] + tail)| ==
      |CodeLines(tail)| + if c == '\n' || tail == "" then 1 else 0
  {
    hide CodeLines, StripTrailingCR;
    var text := [c] + tail;
    assert text[1..] == tail;
    CodeLinesStep(text);
    CodeLinesStep(tail);
    var k := IndexOf(text, '\n');
    if c != '\n' && k != -1 {
      assert text[k + 1..] == tail[k..];
    }
  }

  lemma {:induction false} StandardLinesFront(c: char, tail: string)
    ensures |StandardLines([c] + tail)| ==
      |StandardLines(tail)| + if c == '\n' || tail == "" || (c == '\r' && tail[0] != '\n') then 1 else 0
  {
    var text := [c] + tail;
    assert text[1..] == tail;
    if c == '\r' && tail != "" && tail[0] == '\n' {
      assert text[2..] == tail[1..];
    }
  }

  /** Each lone carriage return adds one line to the standard's cut. */
  lemma {:induction false} LoneReturnsAddLines(text: string)
    ensures |StandardLines(text)| == |CodeLines(text)| + LoneReturns(text)
  {
    hide CodeLines, StandardLines;
    if text == "" {
      NoLines();
    } else {
      assert text == [text[0]] + text[1..];
      CodeLinesFront(text[0], text[1..]);
      StandardLinesFront(text[0], text[1..]);
      LoneReturnsAddLines(text[1..]);
    }
  }

  lemma NoLines()
    ensures StandardLines("") == [] && CodeLines("") == []
  {
    CodeLinesStep("");
  }

  lemma {:induction false} PairedLinesAgree(text: string)
    requires Paired(text)
    ensures CodeLines(text) == StandardLines(text)
    decreases |text|
  {
    hide CodeLines, StripTrailingCR, FirstLine, IndexOf, Paired;
    var k := IndexOf(text, '\n');
    CodeLinesStep(text);
    SameFirstLine(text);
    if k != -1 {
      PairedTail(text, k + 1);
      PairedLinesAgree(text[k + 1..]);
    } else {
      NothingLeft();
    }
  }

  /**
   * For every text, the code's lines are the standard's exactly if no carriage return stands before
   * a character other than a newline.
   */
  lemma {:induction false} LinesAgreeExactly(text: string)
    ensures CodeLines(text) == StandardLines(text) <==> Paired(text)
    ensures |StandardLines(text)| == |CodeLines(text)| + LoneReturns(text)
  {
    LoneReturnsAddLines(text);
    LoneReturnsMeaning(text);
    if Paired(text) {
      PairedLinesAgree(text);
    }
  }

  /** A carriage return alone ends a line in the standard and not in the code. */
  lemma LoneCarriageReturn()
    ensures StandardParse("data\r\r") == [Message("message", "")] && Parse("data\r\r") == []
  {
    hide StandardParse, Parse;
    LoneReturnsInStandard();
    LoneReturnsInCode();
  }

  lemma LoneReturnsInStandard()
    ensures StandardParse("data\r\r") == [Message("message", "")]
  {
    hide ParseField, FirstLine, FieldName, FieldValue;
    SameField("data");
    var text := "data\r\r";
    CutsAt(text, 4);
    CutsAt("\r", 0);
    assert text[..4] == "data" && text[5..] == "\r" && "\r"[..0] == "" && "\r"[1..] == "";
    NoColon("data");
    NothingLeft();
  }

  lemma LoneReturnsInCode()
    ensures Parse("data\r\r") == []
  {
    hide ParseField, Complete, Rest;
    NoLine(FRESH, "data\r\r");
    assert StripTrailingCR("data\r\r") == "data\r";
    NoColon("data\r");
  }

  lemma NoColon(line: string)
    requires ':' !in line
    ensures ParseField(line) == Field(line, "")
  {
  }

  lemma {:induction false} CutsAt(text: string, k: nat)
    requires k < |text| && text[k] == '\r' && forall j :: 0 <= j < k ==> text[j] != '\n' && text[j] != '\r'
    requires k + 1 < |text| ==> text[k + 1] != '\n'
    ensures FirstLine(text) == Cut(text[..k], text[k + 1..])
  {
    if k > 0 {
      CutsAt(text[1..], k - 1);
      assert text[..k] == [text[0]] + text[1..][..k - 1];
    }
  }
}
