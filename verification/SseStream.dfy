/** Server-sent events: the incremental parser, the one-pass parse it must agree with, and the serialiser. */
module SseStream {
  import opened Shared

  /** A parsed event: its optional `event:` name and its `data:` payload. */
  datatype Event = Event(name: Option<string>, data: string)

  // ----- lines and fields -----

  function StripTrailingCR(line: string): string {
    if line != "" && line[|line| - 1] == '\r' then line[..|line| - 1] else line
  }

  /** Position of the first `c`, or -1: `indexOf`. */
  function IndexOf(s: string, c: char): (k: int)
    ensures k == -1 <==> c !in s
    ensures k != -1 ==> 0 <= k < |s| && s[k] == c && forall j :: 0 <= j < k ==> s[j] != c
  {
    if s == "" then -1
    else if s[0] == c then 0
    else
      var k := IndexOf(s[1..], c);
      if k == -1 then -1 else k + 1
  }

  datatype Field = Field(name: string, value: string)

  function ParseField(line: string): Field {
    var colon := IndexOf(line, ':');
    if colon == -1 then Field(line, "")
    else
      var value := line[colon + 1..];
      Field(line[..colon], if value != "" && value[0] == ' ' then value[1..] else value)
  }

  /** `lines.join('\n')` */
  function Join(lines: seq<string>): string {
    if lines == [] then ""
    else if |lines| == 1 then lines[0]
    else Join(lines[..|lines| - 1]) + "\n" + lines[|lines| - 1]
  }

  // ----- the pending event -----

  /** The lines gathered for the event not yet closed, and the events emitted so far. */
  datatype Parser = Parser(dataLines: seq<string>, name: Option<string>, events: seq<Event>)

  const FRESH := Parser([], None, [])

  /** Close the pending event, if there is one. */
  function Flush(p: Parser): Parser {
    if p.dataLines == [] && p.name.None? then p
    else Parser([], None, p.events + [Event(p.name, Join(p.dataLines))])
  }

  function ProcessLine(p: Parser, rawLine: string): Parser {
    var line := StripTrailingCR(rawLine);
    if line == "" then Flush(p)
    else if line[0] == ':' then p
    else
      var f := ParseField(line);
      if f.name == "data" then p.(dataLines := p.dataLines + [f.value])
      else if f.name == "event" then p.(name := Some(f.value))
      else p
  }

  // ----- the one-pass parse -----

  /** The text cut at every newline; the last piece is what follows the last one. */
  function Lines(text: string): (r: seq<string>)
    ensures r != []
    decreases |text|
  {
    var k := IndexOf(text, '\n');
    if k == -1 then [text] else [text[..k]] + Lines(text[k + 1..])
  }

  function ProcessAll(p: Parser, lines: seq<string>): Parser
    decreases |lines|
  {
    if lines == [] then p else ProcessAll(ProcessLine(p, lines[0]), lines[1..])
  }

  /** All the complete lines of `text`, processed in order. */
  function Complete(p: Parser, text: string): Parser {
    var ls := Lines(text);
    ProcessAll(p, ls[..|ls| - 1])
  }

  /** What follows the last newline. */
  function Rest(text: string): string {
    var ls := Lines(text);
    ls[|ls| - 1]
  }

  /** The whole text parsed line by line; an unterminated last line and last event count. */
  function Parse(text: string): seq<Event> {
    var p := Complete(FRESH, text);
    var p := if Rest(text) == "" then p else ProcessLine(p, Rest(text));
    Flush(p).events
  }

  function Concat(chunks: seq<string>): string {
    if chunks == [] then "" else Concat(chunks[..|chunks| - 1]) + chunks[|chunks| - 1]
  }

  // ----- text that arrives in two parts -----

  lemma ProcessAllCons(p: Parser, line: string, lines: seq<string>)
    ensures ProcessAll(p, [line] + lines) == ProcessAll(ProcessLine(p, line), lines)
  {
    hide ProcessLine;
    assert ([line] + lines)[1..] == lines;
  }

  lemma OneLine(p: Parser, text: string)
    requires '\n' in text
    ensures var k := IndexOf(text, '\n');
      && Complete(p, text) == Complete(ProcessLine(p, text[..k]), text[k + 1..])
      && Rest(text) == Rest(text[k + 1..])
  {
    hide ProcessLine, ProcessAll, IndexOf;
    var k := IndexOf(text, '\n');
    var ls, tail := Lines(text), Lines(text[k + 1..]);
    assert ls == [text[..k]] + tail;
    assert ls[..|ls| - 1] == [text[..k]] + tail[..|tail| - 1];
    ProcessAllCons(p, text[..k], tail[..|tail| - 1]);
  }

  lemma FirstIndex(a: string, b: string, c: char)
    requires c in a
    ensures IndexOf(a + b, c) == IndexOf(a, c)
  {
    var k := IndexOf(a, c);
    assert (a + b)[k] == c && forall j :: 0 <= j < k ==> (a + b)[j] == a[j];
  }

  lemma NoLine(p: Parser, text: string)
    requires '\n' !in text
    ensures Complete(p, text) == p && Rest(text) == text
  {
    assert Lines(text) == [text];
  }

  /** Processing `a` and then what is left of it followed by `b` is processing `a + b`. */
  lemma {:induction false} CompleteConcat(p: Parser, a: string, b: string)
    ensures Complete(p, a + b) == Complete(Complete(p, a), Rest(a) + b)
    ensures Rest(a + b) == Rest(Rest(a) + b)
    decreases |a|
  {
    hide ProcessLine, Complete, Rest, Lines, IndexOf;
    var k := IndexOf(a, '\n');
    if k == -1 {
      NoLine(p, a);
    } else {
      FirstIndex(a, b, '\n');
      assert (a + b)[..k] == a[..k] && (a + b)[k + 1..] == a[k + 1..] + b;
      OneLine(p, a);
      OneLine(p, a + b);
      CompleteConcat(ProcessLine(p, a[..k]), a[k + 1..], b);
    }
  }

  // ----- the parser -----

  /**
   * `parseSSEStream`: the same events however it is cut into reads; after read `i` the events emitted, `sofar[i]`,
   * are those of the complete lines so far.
   */
  method ParseStream(chunks: seq<string>) returns (events: seq<Event>, ghost sofar: seq<seq<Event>>)
    ensures events == Parse(Concat(chunks))
    ensures |sofar| == |chunks|
    ensures forall i :: 0 <= i < |chunks| ==> sofar[i] == Complete(FRESH, Concat(chunks[..i + 1])).events
  {
    hide ProcessLine, Complete, Rest, Lines, IndexOf, Flush;
    var buffer, state := "", FRESH;
    sofar := [];
    NoLine(FRESH, "");
    for i := 0 to |chunks|
      invariant state == Complete(FRESH, Concat(chunks[..i]))
      invariant buffer == Rest(Concat(chunks[..i]))
      invariant |sofar| == i
      invariant forall j :: 0 <= j < i ==> sofar[j] == Complete(FRESH, Concat(chunks[..j + 1])).events
    {
      assert chunks[..i + 1][..i] == chunks[..i];
      ghost var text := Concat(chunks[..i]);
      CompleteConcat(FRESH, text, chunks[i]);
      buffer := buffer + chunks[i];
      ghost var start, whole := state, buffer;
      var newline := IndexOf(buffer, '\n');
      while newline != -1
        invariant newline == IndexOf(buffer, '\n')
        invariant Complete(state, buffer) == Complete(start, whole)
        invariant Rest(buffer) == Rest(whole)
        decreases |buffer|
      {
        var line := buffer[..newline];
        OneLine(state, buffer);
        buffer := buffer[newline + 1..];
        state := ProcessLine(state, line);
        newline := IndexOf(buffer, '\n');
      }
      NoLine(state, buffer);
      sofar := sofar + [state.events];
    }
    assert chunks[..|chunks|] == chunks;
    if buffer != "" {
      state := ProcessLine(state, buffer);
    }
    events := Flush(state).events;
  }

  // ----- nothing emitted is taken back -----

  lemma {:induction false} EventsGrow(p: Parser, text: string)
    ensures p.events <= Complete(p, text).events
    decreases |text|
  {
    hide Complete, Rest, Lines, IndexOf;
    var k := IndexOf(text, '\n');
    if k == -1 {
      NoLine(p, text);
    } else {
      OneLine(p, text);
      EventsGrow(ProcessLine(p, text[..k]), text[k + 1..]);
    }
  }

  /** The events of the complete lines read so far open the events of every continuation. */
  lemma EmittedEarly(a: string, b: string)
    ensures Complete(FRESH, a).events <= Parse(a + b)
  {
    hide Complete, Rest;
    CompleteConcat(FRESH, a, b);
    EventsGrow(Complete(FRESH, a), Rest(a) + b);
  }

  // ----- serialising -----

  /** `serializeSSE` of a payload already printed as text, and the terminal frame for "[DONE]". */
  function Frame(payload: string): string {
    "data: " + payload + "\n\n"
  }

  function Frames(payloads: seq<string>): string {
    if payloads == [] then "" else Frame(payloads[0]) + Frames(payloads[1..])
  }

  /** A payload that survives the line format. */
  predicate Clean(payload: string) {
    '\n' !in payload && (payload == "" || payload[|payload| - 1] != '\r')
  }

  function AsEvents(payloads: seq<string>): seq<Event> {
    if payloads == [] then [] else [Event(None, payloads[0])] + AsEvents(payloads[1..])
  }

  // ----- what one frame does -----

  predicate Idle(p: Parser) {
    p.dataLines == [] && p.name.None?
  }

  /** A newline completes the line before it. */
  lemma Newline(p: Parser, text: string)
    ensures Complete(p, text + "\n") == ProcessLine(Complete(p, text), Rest(text))
    ensures Rest(text + "\n") == ""
  {
    hide ProcessLine, Complete, Rest, Lines, IndexOf;
    var last := Rest(text) + "\n";
    CompleteConcat(p, text, "\n");
    RestHasNoNewline(text);
    assert last[|last| - 1] == '\n';
    OneLine(Complete(p, text), last);
    assert last[..|last| - 1] == Rest(text) && last[|last|..] == "";
    NoLine(ProcessLine(Complete(p, text), Rest(text)), "");
  }

  lemma {:induction false} RestHasNoNewline(text: string)
    ensures '\n' !in Rest(text)
    decreases |text|
  {
    hide ProcessLine, Complete, Rest, Lines, IndexOf;
    var k := IndexOf(text, '\n');
    if k == -1 {
      NoLine(FRESH, text);
    } else {
      OneLine(FRESH, text);
      RestHasNoNewline(text[k + 1..]);
    }
  }

  lemma EmptyLineFlushes(p: Parser)
    ensures ProcessLine(p, "") == Flush(p) && Idle(Flush(p))
  {
  }

  /** The state after a frame, and that nothing of it stays pending. */
  lemma FrameResult(p: Parser, payload: string)
    ensures var t := "data: " + payload;
      Complete(p, Frame(payload)) == Flush(ProcessLine(Complete(p, t), Rest(t)))
    ensures Idle(Complete(p, Frame(payload))) && Rest(Frame(payload)) == ""
  {
    hide ProcessLine, Complete, Rest, Flush;
    var t := "data: " + payload;
    var t1 := t + "\n";
    assert Frame(payload) == t1 + "\n";
    Newline(p, t);
    Newline(p, t1);
    EmptyLineFlushes(Complete(p, t1));
  }

  lemma ParseDataField(v: string)
    ensures ParseField("data: " + v) == Field("data", v)
  {
    var line := "data: " + v;
    assert IndexOf(line, ':') == 4 by {
      assert line[4] == ':' && line[0] == 'd' && line[1] == 'a' && line[2] == 't' && line[3] == 'a';
    }
    assert line[..4] == "data" && line[5..] == " " + v && (" " + v)[1..] == v;
  }

  lemma DataLine(p: Parser, value: string)
    requires '\n' !in value
    ensures ProcessLine(p, "data: " + value) == p.(dataLines := p.dataLines + [StripTrailingCR(value)])
  {
    hide ParseField, Flush;
    var line := "data: " + StripTrailingCR(value);
    assert StripTrailingCR("data: " + value) == line;
    assert line[0] == 'd';
    ParseDataField(StripTrailingCR(value));
  }

  lemma CleanFrame(p: Parser, payload: string)
    requires Idle(p) && Clean(payload)
    ensures Complete(p, Frame(payload)) == Parser([], None, p.events + [Event(None, payload)])
  {
    hide Complete, Rest, ProcessLine, Frame;
    FrameResult(p, payload);
    NoLine(p, "data: " + payload);
    DataLine(p, payload);
    assert p.dataLines + [payload] == [payload];
  }

  // ----- how much data can come out of a text -----

  function DataLength(events: seq<Event>): nat {
    if events == [] then 0 else DataLength(events[..|events| - 1]) + |events[|events| - 1].data|
  }

  function Weight(p: Parser): nat {
    DataLength(p.events) + |Join(p.dataLines)|
  }

  lemma FlushWeighs(p: Parser)
    ensures Weight(Flush(p)) == Weight(p)
  {
    DataLengthAppend(p.events, Event(p.name, Join(p.dataLines)));
  }

  /** No line, whatever it holds, brings more data than it has characters. */
  lemma LineWeighs(p: Parser, rawLine: string)
    ensures Weight(ProcessLine(p, rawLine)) <= Weight(p) + |rawLine|
  {
    var line := StripTrailingCR(rawLine);
    if line == "" {
      FlushWeighs(p);
    } else if line[0] != ':' {
      var f := ParseField(line);
      if f.name == "data" {
        assert |f.value| + 4 <= |line|;
        var lines := p.dataLines + [f.value];
        assert lines[..|lines| - 1] == p.dataLines;
      }
    }
  }

  lemma {:induction false} TextWeighs(p: Parser, text: string)
    ensures Weight(ProcessLine(Complete(p, text), Rest(text))) <= Weight(p) + |text|
    decreases |text|
  {
    hide ProcessLine, Complete, Rest, Weight;
    var k := IndexOf(text, '\n');
    if k == -1 {
      NoLine(p, text);
      LineWeighs(p, text);
    } else {
      OneLine(p, text);
      LineWeighs(p, text[..k]);
      TextWeighs(ProcessLine(p, text[..k]), text[k + 1..]);
    }
  }

  lemma DataLineWeighs(p: Parser, value: string)
    requires '\n' !in value && Idle(p)
    ensures Weight(ProcessLine(p, "data: " + value)) <= Weight(p) + |value|
    ensures !Clean(value) ==> Weight(ProcessLine(p, "data: " + value)) < Weight(p) + |value|
  {
    DataLine(p, value);
    var v := ProcessLine(p, "data: " + value).dataLines;
    assert v == [v[0]] && Join(v) == v[0];
  }

  lemma PrefixedLine(prefix: string, payload: string)
    requires '\n' !in prefix && '\n' in payload
    ensures var k, t := IndexOf(payload, '\n'), prefix + payload;
      && IndexOf(t, '\n') == |prefix| + k
      && t[..|prefix| + k] == prefix + payload[..k] && t[|prefix| + k + 1..] == payload[k + 1..]
  {
    hide IndexOf;
    var k, t := IndexOf(payload, '\n'), prefix + payload;
    assert t[|prefix| + k] == '\n';
    assert forall j :: 0 <= j < |prefix| + k ==> t[j] == if j < |prefix| then prefix[j] else payload[j - |prefix|];
  }

  /** A frame never yields more data than its payload, and less if the payload is not clean. */
  lemma FrameWeighs(p: Parser, payload: string)
    requires Idle(p)
    ensures Weight(Complete(p, Frame(payload))) <= Weight(p) + |payload|
    ensures !Clean(payload) ==> Weight(Complete(p, Frame(payload))) < Weight(p) + |payload|
  {
    hide ProcessLine, Complete, Rest, Weight, IndexOf;
    var t := "data: " + payload;
    FrameResult(p, payload);
    FlushWeighs(ProcessLine(Complete(p, t), Rest(t)));
    var k := IndexOf(payload, '\n');
    if k == -1 {
      NoLine(p, t);
      DataLineWeighs(p, payload);
    } else {
      PrefixedLine("data: ", payload);
      OneLine(p, t);
      DataLineWeighs(p, payload[..k]);
      TextWeighs(ProcessLine(p, "data: " + payload[..k]), payload[k + 1..]);
    }
  }

  // ----- the round trip -----

  predicate AllClean(payloads: seq<string>) {
    payloads == [] || (Clean(payloads[0]) && AllClean(payloads[1..]))
  }

  function TotalLength(payloads: seq<string>): nat {
    if payloads == [] then 0 else |payloads[0]| + TotalLength(payloads[1..])
  }

  lemma FramesStep(p: Parser, payloads: seq<string>)
    requires payloads != []
    ensures Complete(p, Frames(payloads)) == Complete(Complete(p, Frame(payloads[0])), Frames(payloads[1..]))
    ensures Rest(Frames(payloads)) == Rest(Frames(payloads[1..]))
  {
    hide ProcessLine, Complete, Rest, Frame;
    FrameResult(p, payloads[0]);
    CompleteConcat(p, Frame(payloads[0]), Frames(payloads[1..]));
    assert "" + Frames(payloads[1..]) == Frames(payloads[1..]);
  }

  lemma {:induction false} FramesParse(p: Parser, payloads: seq<string>)
    requires Idle(p)
    ensures Idle(Complete(p, Frames(payloads))) && Rest(Frames(payloads)) == ""
    ensures AllClean(payloads) ==> Complete(p, Frames(payloads)).events == p.events + AsEvents(payloads)
    ensures Weight(Complete(p, Frames(payloads))) <= Weight(p) + TotalLength(payloads)
    ensures !AllClean(payloads) ==> Weight(Complete(p, Frames(payloads))) < Weight(p) + TotalLength(payloads)
    decreases |payloads|
  {
    hide ProcessLine, Complete, Rest, Weight, Clean, Frame, Idle;
    if payloads == [] {
      NoLine(p, "");
    } else {
      var q := Complete(p, Frame(payloads[0]));
      FramesStep(p, payloads);
      FrameResult(p, payloads[0]);
      FrameWeighs(p, payloads[0]);
      FramesParse(q, payloads[1..]);
      if AllClean(payloads) {
        var e := Event(None, payloads[0]);
        CleanFrame(p, payloads[0]);
        assert p.events + AsEvents(payloads) == (p.events + [e]) + AsEvents(payloads[1..]);
      }
    }
  }

  lemma DataLengthAppend(events: seq<Event>, e: Event)
    ensures DataLength(events + [e]) == DataLength(events) + |e.data|
  {
    assert (events + [e])[..|events|] == events;
  }

  lemma {:induction false} EventsWeigh(events: seq<Event>, payloads: seq<string>)
    ensures DataLength(events + AsEvents(payloads)) == DataLength(events) + TotalLength(payloads)
    decreases |payloads|
  {
    hide DataLength;
    if payloads == [] {
      assert events + AsEvents(payloads) == events;
    } else {
      var e := Event(None, payloads[0]);
      EventsWeigh(events + [e], payloads[1..]);
      assert events + AsEvents(payloads) == (events + [e]) + AsEvents(payloads[1..]);
      DataLengthAppend(events, e);
    }
  }

  /**
   * Parsing concatenated frames gives back exactly the payloads, in order, if and only if no
   * payload contains a newline or ends in a carriage return.
   */
  lemma {:induction false} FramesRoundTrip(payloads: seq<string>)
    ensures Parse(Frames(payloads)) == AsEvents(payloads) <==> AllClean(payloads)
  {
    FramesParse(FRESH, payloads);
    EventsWeigh([], payloads);
    assert [] + AsEvents(payloads) == AsEvents(payloads);
    var q := Complete(FRESH, Frames(payloads));
    assert Parse(Frames(payloads)) == q.events;
    assert Weight(q) == DataLength(q.events);
  }
}
