/** The Anthropic adapter's two response paths: the event-stream normaliser and the non-streaming translator. */
module AnthropicStream {
  import opened Shared

  // ----- what arrives: events after JSON parsing -----

  datatype BlockHead = TextHead(text: string) | ToolHead(id: Option<string>, name: Option<string>) | OtherHead

  datatype Delta = TextDelta(text: string) | JsonDelta(json: string) | OtherDelta

  datatype Event =
    | MessageStart(inputTokens: Option<nat>)
    | BlockStart(index: Option<int>, head: BlockHead)
    | BlockDelta(index: Option<int>, delta: Delta)
    | MessageDelta(stopReason: Option<string>, outputTokens: Option<nat>)
    | ErrorEvent(message: string)
    | MessageStop
    | Ignored

  // ----- what leaves: OpenAI chunks -----

  datatype FinishReason = Stop | Length | ToolCalls | ContentFilter

  datatype Chunk =
    | RoleChunk
    | ContentChunk(text: string)
    | ToolChunk(index: nat, id: Option<string>, name: Option<string>, arguments: string)
    | FinishChunk(reason: FinishReason)
    | UsageChunk(promptTokens: nat, completionTokens: nat)

  function MapStopReason(reason: Option<string>, sawToolUse: bool): FinishReason {
    if reason == Some("max_tokens") || reason == Some("model_context_window_exceeded") then Length
    else if reason == Some("refusal") then ContentFilter
    else if reason == Some("tool_use") || sawToolUse then ToolCalls
    else Stop
  }

  /** Which finish reason stands for what. */
  lemma FinishReasonMeans(reason: Option<string>, sawToolUse: bool)
    ensures var cut := reason == Some("max_tokens") || reason == Some("model_context_window_exceeded");
      var refused, tools := reason == Some("refusal"), reason == Some("tool_use");
      && (MapStopReason(reason, sawToolUse) == Length <==> cut)
      && (MapStopReason(reason, sawToolUse) == ContentFilter <==> refused)
      && (MapStopReason(reason, sawToolUse) == ToolCalls <==> tools || (sawToolUse && !cut && !refused))
      && (MapStopReason(reason, sawToolUse) == Stop <==> !sawToolUse && !cut && !refused && !tools)
  {
    assert "max_tokens"[0] != "refusal"[0] && "model_context_window_exceeded"[0] != "refusal"[0];
    assert "tool_use"[0] != "refusal"[0] && "tool_use"[0] != "max_tokens"[0];
    assert "tool_use"[0] != "model_context_window_exceeded"[0];
  }

  // ----- the normaliser -----

  /** The normaliser's variables. */
  datatype Vars = Vars(
    promptTokens: nat, completionTokens: nat, stopReason: Option<string>, sawToolUse: bool,
    nextToolIndex: nat, toolIndexByBlock: map<int, nat>, roleEmitted: bool)

  const INITIAL := Vars(0, 0, None, false, 0, map[], false)

  predicate Terminal(e: Event) {
    e.MessageStop? || e.ErrorEvent?
  }

  function VarsAfter(v: Vars, e: Event): Vars {
    match e
    case MessageStart(n) => v.(promptTokens := n.GetOr(v.promptTokens), roleEmitted := true)
    case BlockStart(index, ToolHead(_, _)) =>
      v.(sawToolUse := true, nextToolIndex := v.nextToolIndex + 1,
         toolIndexByBlock := v.toolIndexByBlock[index.GetOr(0) := v.nextToolIndex])
    case MessageDelta(reason, n) =>
      v.(stopReason := if reason.Some? then reason else v.stopReason, completionTokens := n.GetOr(v.completionTokens))
    case _ => v
  }

  function Emitted(v: Vars, e: Event): seq<Chunk> {
    match e
    case MessageStart(_) => if v.roleEmitted then [] else [RoleChunk]
    case BlockStart(_, ToolHead(id, name)) => [ToolChunk(v.nextToolIndex, id, name, "")]
    case BlockDelta(_, TextDelta(text)) => [ContentChunk(text)]
    case BlockDelta(index, JsonDelta(json)) =>
      var i := index.GetOr(0);
      [ToolChunk(if i in v.toolIndexByBlock then v.toolIndexByBlock[i] else 0, None, None, json)]
    case _ => []
  }

  /** The variables and all chunks after events none of which is terminal. */
  function Normalised(events: seq<Event>): (Vars, seq<Chunk>) {
    if events == [] then (INITIAL, [])
    else
      var (v, chunks) := Normalised(events[..|events| - 1]);
      var e := events[|events| - 1];
      (VarsAfter(v, e), chunks + Emitted(v, e))
  }

  /** The chunks a message_stop adds. */
  function Closing(v: Vars, wantUsage: bool): seq<Chunk> {
    [FinishChunk(MapStopReason(v.stopReason, v.sawToolUse))]
    + if wantUsage then [UsageChunk(v.promptTokens, v.completionTokens)] else []
  }

  lemma NothingNormalised()
    ensures Normalised([]) == (INITIAL, [])
  {
  }

  lemma OneMoreEvent(events: seq<Event>, i: nat)
    requires i < |events|
    ensures var (v, chunks) := Normalised(events[..i]);
      Normalised(events[..i + 1]) == (VarsAfter(v, events[i]), chunks + Emitted(v, events[i]))
  {
    hide VarsAfter, Emitted;
    assert events[..i + 1][..i] == events[..i];
  }

  predicate IsToolStart(e: Event) {
    e.BlockStart? && e.head.ToolHead?
  }

  /** How many tool blocks have been opened. */
  function ToolStarts(events: seq<Event>): nat {
    if events == [] then 0
    else ToolStarts(events[..|events| - 1]) + if IsToolStart(events[|events| - 1]) then 1 else 0
  }

  /** How many tool blocks were opened before the last one with this block index, if there is one. */
  function CallOpened(events: seq<Event>, index: int): Option<nat> {
    if events == [] then None
    else
      var before, e := events[..|events| - 1], events[|events| - 1];
      if IsToolStart(e) && e.index.GetOr(0) == index then Some(ToolStarts(before)) else CallOpened(before, index)
  }

  /**
   * In any stream at all a fragment goes to the tool call last opened under its block index, and to
   * the first call if there is none; calls are numbered in the order they are opened.
   */
  lemma {:induction false} FragmentsGoToTheirCall(events: seq<Event>, index: int)
    ensures var v := Normalised(events).0;
      && v.nextToolIndex == ToolStarts(events) && (v.sawToolUse <==> ToolStarts(events) > 0)
      && (index in v.toolIndexByBlock <==> CallOpened(events, index).Some?)
      && (index in v.toolIndexByBlock ==> Some(v.toolIndexByBlock[index]) == CallOpened(events, index))
      && var call := CallOpened(events, index).GetOr(0);
        forall json :: Emitted(v, BlockDelta(Some(index), JsonDelta(json))) == [ToolChunk(call, None, None, json)]
  {
    if events != [] {
      FragmentsGoToTheirCall(events[..|events| - 1], index);
    }
  }

  function RoleChunks(chunks: seq<Chunk>): nat {
    if chunks == [] then 0
    else RoleChunks(chunks[..|chunks| - 1]) + if chunks[|chunks| - 1].RoleChunk? then 1 else 0
  }

  predicate Started(events: seq<Event>) {
    exists k :: 0 <= k < |events| && events[k].MessageStart?
  }

  lemma RoleChunksAppend(chunks: seq<Chunk>, c: Chunk)
    ensures RoleChunks(chunks + [c]) == RoleChunks(chunks) + if c.RoleChunk? then 1 else 0
  {
    assert (chunks + [c])[..|chunks|] == chunks;
  }

  lemma StartedAppend(events: seq<Event>, e: Event)
    ensures Started(events + [e]) <==> Started(events) || e.MessageStart?
  {
    var all := events + [e];
    assert all[|events|] == e;
    assert forall k :: 0 <= k < |events| ==> all[k] == events[k];
  }

  /** The role is announced once, when the first message_start comes. */
  lemma {:induction false} RoleComesOnce(events: seq<Event>)
    ensures RoleChunks(Normalised(events).1) == if Started(events) then 1 else 0
    ensures Normalised(events).0.roleEmitted <==> Started(events)
  {
    if events != [] {
      hide RoleChunks, Started;
      var before, e := events[..|events| - 1], events[|events| - 1];
      var v, chunks := Normalised(before).0, Normalised(before).1;
      RoleComesOnce(before);
      StartedAppend(before, e);
      assert events == before + [e];
      if Emitted(v, e) == [] {
        assert chunks + [] == chunks;
      } else {
        assert Emitted(v, e) == [Emitted(v, e)[0]];
        RoleChunksAppend(chunks, Emitted(v, e)[0]);
      }
    }
  }

  /** A stream that opens with message_start opens with the role. */
  lemma {:induction false} RoleComesFirst(events: seq<Event>)
    requires events != [] && events[0].MessageStart?
    ensures Normalised(events).1 != [] && Normalised(events).1[0] == RoleChunk
  {
    if |events| == 1 {
      assert events[..0] == [];
    } else {
      RoleComesFirst(events[..|events| - 1]);
    }
  }

  datatype Ending = Stopped | RanOut | Failed(message: string)

  /** `normaliseStream`: it handles events up to the first terminal one. */
  method NormaliseStream(events: seq<Event>, wantUsage: bool) returns (chunks: seq<Chunk>, ending: Ending, ghost used: nat)
    ensures used <= |events| && forall j :: 0 <= j < used ==> !Terminal(events[j])
    ensures var (v, body) := Normalised(events[..used]);
      match ending
      case Stopped =>
        && used < |events| && events[used].MessageStop? && chunks == body + Closing(v, wantUsage)
        && |chunks| == |body| + (if wantUsage then 2 else 1) && chunks[|body|].FinishChunk?
        && (wantUsage ==> chunks[|body| + 1] == UsageChunk(v.promptTokens, v.completionTokens))
      case RanOut => used == |events| && chunks == body
      case Failed(message) => used < |events| && events[used] == ErrorEvent(message) && chunks == body
  {
    hide MapStopReason, Normalised;
    NothingNormalised();
    chunks, used := [], 0;
    var promptTokens: nat, completionTokens: nat := 0, 0;
    var stopReason := None;
    var sawToolUse, roleEmitted := false, false;
    var nextToolIndex := 0;
    var toolIndexByBlock: map<int, nat> := map[];
    for i := 0 to |events|
      invariant used == i && forall j :: 0 <= j < i ==> !Terminal(events[j])
      invariant Normalised(events[..i]) ==
        (Vars(promptTokens, completionTokens, stopReason, sawToolUse, nextToolIndex, toolIndexByBlock, roleEmitted), chunks)
    {
      OneMoreEvent(events, i);
      assert chunks + [] == chunks;
      match events[i] {
        case MessageStart(inputTokens) =>
          promptTokens := inputTokens.GetOr(promptTokens);
          if !roleEmitted {
            roleEmitted := true;
            chunks := chunks + [RoleChunk];
          }
        case BlockStart(index, head) =>
          if head.ToolHead? {
            var toolIndex := nextToolIndex;
            nextToolIndex := nextToolIndex + 1;
            toolIndexByBlock := toolIndexByBlock[index.GetOr(0) := toolIndex];
            sawToolUse := true;
            chunks := chunks + [ToolChunk(toolIndex, head.id, head.name, "")];
          }
        case BlockDelta(index, delta) =>
          if delta.TextDelta? {
            chunks := chunks + [ContentChunk(delta.text)];
          } else if delta.JsonDelta? {
            var toolIndex := if index.GetOr(0) in toolIndexByBlock then toolIndexByBlock[index.GetOr(0)] else 0;
            chunks := chunks + [ToolChunk(toolIndex, None, None, delta.json)];
          }
        case MessageDelta(reason, outputTokens) =>
          if reason.Some? {
            stopReason := reason;
          }
          completionTokens := outputTokens.GetOr(completionTokens);
        case ErrorEvent(message) =>
          return chunks, Failed(message), used;
        case MessageStop =>
          chunks := chunks + ([FinishChunk(MapStopReason(stopReason, sawToolUse))]
                              + if wantUsage then [UsageChunk(promptTokens, completionTokens)] else []);
          return chunks, Stopped, used;
        case Ignored =>
      }
      used := i + 1;
    }
    assert events[..|events|] == events;
    ending := RanOut;
  }

  // ----- the client: accumulating chunks -----

  datatype Call = Call(id: Option<string>, name: Option<string>, arguments: string)

  /** What a client holds after some chunks. */
  datatype Received = Received(text: string, calls: seq<Call>, finish: Option<FinishReason>, usage: Option<(nat, nat)>)

  function Feed(r: Received, c: Chunk): Received {
    match c
    case RoleChunk => r
    case ContentChunk(text) => r.(text := r.text + text)
    case ToolChunk(i, id, name, args) =>
      if i < |r.calls| then
        var was := r.calls[i];
        r.(calls := r.calls[i := Call(if id.Some? then id else was.id, if name.Some? then name else was.name, was.arguments + args)])
      else if i == |r.calls| then r.(calls := r.calls + [Call(id, name, args)])
      else r
    case FinishChunk(reason) => r.(finish := Some(reason))
    case UsageChunk(p, c) => r.(usage := Some((p, c)))
  }

  function Collect(chunks: seq<Chunk>): Received {
    if chunks == [] then Received("", [], None, None)
    else Feed(Collect(chunks[..|chunks| - 1]), chunks[|chunks| - 1])
  }

  // ----- the message the events spell out -----

  datatype Block =
    | TextBlock(text: string)
    | ToolBlock(id: Option<string>, name: Option<string>, json: string)
    | OtherBlock

  datatype Assembly = Assembly(blocks: seq<Block>, promptTokens: nat, completionTokens: nat, stopReason: Option<string>)

  /** What a stream may bring next: blocks opened in index order, deltas to open blocks of their kind. */
  predicate MayFollow(a: Assembly, e: Event) {
    match e
    case BlockStart(index, _) => index.GetOr(0) == |a.blocks|
    case BlockDelta(index, TextDelta(_)) =>
      var i := index.GetOr(0);
      0 <= i < |a.blocks| && a.blocks[i].TextBlock?
    case BlockDelta(index, JsonDelta(_)) =>
      var i := index.GetOr(0);
      0 <= i < |a.blocks| && a.blocks[i].ToolBlock?
    case _ => !Terminal(e)
  }

  function Extend(a: Assembly, e: Event): Assembly
    requires MayFollow(a, e)
  {
    match e
    case MessageStart(n) => a.(promptTokens := n.GetOr(a.promptTokens))
    case BlockStart(_, head) => a.(blocks := a.blocks + [Opened(head)])
    case BlockDelta(index, TextDelta(text)) =>
      var i := index.GetOr(0);
      a.(blocks := a.blocks[i := TextBlock(a.blocks[i].text + text)])
    case BlockDelta(index, JsonDelta(json)) =>
      var i := index.GetOr(0);
      a.(blocks := a.blocks[i := a.blocks[i].(json := a.blocks[i].json + json)])
    case MessageDelta(reason, n) =>
      a.(stopReason := if reason.Some? then reason else a.stopReason, completionTokens := n.GetOr(a.completionTokens))
    case _ => a
  }

  function Opened(head: BlockHead): Block {
    match head
    case TextHead(text) => TextBlock(text)
    case ToolHead(id, name) => ToolBlock(id, name, "")
    case OtherHead => OtherBlock
  }

  /** The message a stream (without its message_stop) spells out; `None` if the stream addresses no such message. */
  function Assemble(events: seq<Event>): Option<Assembly> {
    if events == [] then Some(Assembly([], 0, 0, None))
    else
      match Assemble(events[..|events| - 1])
      case None => None
      case Some(a) =>
        var e := events[|events| - 1];
        if MayFollow(a, e) then Some(Extend(a, e)) else None
  }

  /** No later text block holds any text yet. */
  predicate LastText(blocks: seq<Block>, i: int) {
    forall j :: 0 <= j < |blocks| && i < j && blocks[j].TextBlock? ==> blocks[j].text == ""
  }

  /** Text blocks start empty, and text comes for the last one that has any. */
  predicate TextFits(a: Assembly, e: Event) {
    match e
    case BlockStart(_, TextHead(text)) => text == ""
    case BlockDelta(index, TextDelta(_)) => LastText(a.blocks, index.GetOr(0))
    case _ => true
  }

  /** Text blocks start empty and are not interleaved. */
  predicate TextInOrder(events: seq<Event>)
    requires Assemble(events).Some?
  {
    events == [] || (
      var before, e := events[..|events| - 1], events[|events| - 1];
      TextInOrder(before) && TextFits(Assemble(before).value, e))
  }

  /** Every tool block opens with an id and a name. */
  predicate ToolsNamed(events: seq<Event>) {
    forall k :: 0 <= k < |events| && events[k].BlockStart? && events[k].head.ToolHead? ==>
      events[k].head.id.Some? && events[k].head.name.Some?
  }

  /** A well-formed stream. */
  predicate WellFormed(events: seq<Event>) {
    Assemble(events).Some? && TextInOrder(events) && ToolsNamed(events)
  }

  // ----- the non-streaming translator -----

  /** A content block of a message response; `J` is the type of JSON values. */
  datatype ResponseBlock<J> =
    | ResponseText(text: Option<string>)
    | ResponseTool(id: Option<string>, name: Option<string>, input: Option<J>)
    | ResponseOther

  datatype Response = Response(
    content: Option<string>, calls: seq<Call>, finish: FinishReason, promptTokens: nat, completionTokens: nat)

  function Text<J>(blocks: seq<ResponseBlock<J>>): Option<string> {
    if blocks == [] then None
    else
      var before, b := Text(blocks[..|blocks| - 1]), blocks[|blocks| - 1];
      if b.ResponseText? && b.text.Some? then Some(before.GetOr("") + b.text.value) else before
  }

  function Calls<J>(blocks: seq<ResponseBlock<J>>, stringify: J -> string, empty: J): seq<Call> {
    if blocks == [] then []
    else
      var before, b := Calls(blocks[..|blocks| - 1], stringify, empty), blocks[|blocks| - 1];
      if b.ResponseTool? && b.id.Some? && b.name.Some? then before + [Call(b.id, b.name, stringify(b.input.GetOr(empty)))]
      else before
  }

  function Translated<J>(
      blocks: seq<ResponseBlock<J>>, stopReason: Option<string>, inputTokens: nat, outputTokens: nat,
      stringify: J -> string, empty: J): Response
  {
    var calls := Calls(blocks, stringify, empty);
    Response(Text(blocks), calls, MapStopReason(stopReason, calls != []), inputTokens, outputTokens)
  }

  /** The text a block carries. */
  function TextGiven<J>(b: ResponseBlock<J>): seq<string> {
    match b
    case ResponseText(Some(text)) => [text]
    case _ => []
  }

  /** A tool use with id and name; one without input has the empty object. */
  function ToolGiven<J>(b: ResponseBlock<J>, empty: J): seq<(string, string, J)> {
    match b
    case ResponseTool(Some(id), Some(name), Some(input)) => [(id, name, input)]
    case ResponseTool(Some(id), Some(name), None) => [(id, name, empty)]
    case _ => []
  }

  function TextsGiven<J>(blocks: seq<ResponseBlock<J>>): seq<string> {
    if blocks == [] then [] else TextGiven(blocks[0]) + TextsGiven(blocks[1..])
  }

  function ToolsGiven<J>(blocks: seq<ResponseBlock<J>>, empty: J): seq<(string, string, J)> {
    if blocks == [] then [] else ToolGiven(blocks[0], empty) + ToolsGiven(blocks[1..], empty)
  }

  lemma GivenCons<J>(b: ResponseBlock<J>, blocks: seq<ResponseBlock<J>>, empty: J)
    ensures TextsGiven([b] + blocks) == TextGiven(b) + TextsGiven(blocks)
    ensures ToolsGiven([b] + blocks, empty) == ToolGiven(b, empty) + ToolsGiven(blocks, empty)
  {
    assert ([b] + blocks)[1..] == blocks;
  }

  lemma {:induction false} GivenAppend<J>(blocks: seq<ResponseBlock<J>>, b: ResponseBlock<J>, empty: J)
    ensures TextsGiven(blocks + [b]) == TextsGiven(blocks) + TextGiven(b)
    ensures ToolsGiven(blocks + [b], empty) == ToolsGiven(blocks, empty) + ToolGiven(b, empty)
  {
    if blocks == [] {
      assert blocks + [b] == [b] + [];
      GivenCons(b, [], empty);
    } else {
      hide TextGiven, ToolGiven, TextsGiven, ToolsGiven;
      var rest := blocks[1..];
      assert blocks == [blocks[0]] + rest && blocks + [b] == [blocks[0]] + (rest + [b]);
      GivenCons(blocks[0], rest, empty);
      GivenCons(blocks[0], rest + [b], empty);
      GivenAppend(rest, b, empty);
    }
  }

  /** No content exactly if there is no text, else all texts in a row. */
  function ContentOf(texts: seq<string>): Option<string> {
    if texts == [] then None else Some(Join(texts))
  }

  lemma ContentGrows<J>(texts: seq<string>, b: ResponseBlock<J>)
    ensures ContentOf(texts + TextGiven(b)) ==
      if b.ResponseText? && b.text.Some? then Some(ContentOf(texts).GetOr("") + b.text.value) else ContentOf(texts)
  {
    if b.ResponseText? && b.text.Some? {
      JoinAppend(texts, b.text.value);
      JoinNothing();
      hide Join;
      assert "" + b.text.value == b.text.value;
    } else {
      assert texts + [] == texts;
    }
  }

  lemma NoContent<J>()
    ensures Text<J>([]) == ContentOf(TextsGiven<J>([]))
  {
  }

  lemma {:induction false} ContentMeans<J>(blocks: seq<ResponseBlock<J>>, stringify: J -> string, empty: J)
    ensures Text(blocks) == ContentOf(TextsGiven(blocks))
  {
    hide *;
    if blocks == [] {
      NoContent<J>();
    } else {
      var front, b := blocks[..|blocks| - 1], blocks[|blocks| - 1];
      ContentMeans(front, stringify, empty);
      GivenAppend(front, b, empty);
      ResponseAppend(front, b, stringify, empty);
      ContentGrows(TextsGiven(front), b);
      assert blocks == front + [b];
    }
  }

  /** One call for every named tool use. */
  lemma {:induction false} CallsMean<J>(blocks: seq<ResponseBlock<J>>, stringify: J -> string, empty: J)
    ensures var calls, tools := Calls(blocks, stringify, empty), ToolsGiven(blocks, empty);
      && |calls| == |tools|
      && forall k :: 0 <= k < |tools| ==> calls[k] == Call(Some(tools[k].0), Some(tools[k].1), stringify(tools[k].2))
  {
    if blocks != [] {
      hide Text, TextsGiven, TextGiven, Join, Calls, ToolsGiven;
      var front, b := blocks[..|blocks| - 1], blocks[|blocks| - 1];
      CallsMean(front, stringify, empty);
      GivenAppend(front, b, empty);
      ResponseAppend(front, b, stringify, empty);
      assert blocks == front + [b];
    }
  }

  lemma JoinNothing()
    ensures Join([]) == ""
  {
  }

  lemma JoinAppend(parts: seq<string>, s: string)
    ensures Join(parts + [s]) == Join(parts) + s
  {
    assert (parts + [s])[..|parts|] == parts;
  }

  function Join(parts: seq<string>): string {
    if parts == [] then "" else Join(parts[..|parts| - 1]) + parts[|parts| - 1]
  }

  /** `translateResponse`; `stringify` is JSON.stringify and `empty` the object `{}`. */
  method TranslateResponse<J>(
      blocks: seq<ResponseBlock<J>>, stopReason: Option<string>, inputTokens: nat, outputTokens: nat,
      stringify: J -> string, empty: J) returns (r: Response)
    ensures r == Translated(blocks, stopReason, inputTokens, outputTokens, stringify, empty)
  {
    var textParts, toolCalls := [], [];
    for i := 0 to |blocks|
      invariant toolCalls == Calls(blocks[..i], stringify, empty)
      invariant Text(blocks[..i]) == if textParts == [] then None else Some(Join(textParts))
    {
      assert blocks[..i + 1][..i] == blocks[..i];
      var b := blocks[i];
      if b.ResponseText? && b.text.Some? {
        assert (textParts + [b.text.value])[..|textParts|] == textParts;
        textParts := textParts + [b.text.value];
      } else if b.ResponseTool? && b.id.Some? && b.name.Some? {
        toolCalls := toolCalls + [Call(b.id, b.name, stringify(b.input.GetOr(empty)))];
      }
    }
    assert blocks[..|blocks|] == blocks;
    r := Response(
      if textParts != [] then Some(Join(textParts)) else None, toolCalls,
      MapStopReason(stopReason, |toolCalls| > 0), inputTokens, outputTokens);
  }

  // ----- text and tools of an assembled message -----

  function AllText(blocks: seq<Block>): string {
    if blocks == [] then ""
    else AllText(blocks[..|blocks| - 1]) + if blocks[|blocks| - 1].TextBlock? then blocks[|blocks| - 1].text else ""
  }

  function ToolsOf(blocks: seq<Block>): seq<Call> {
    if blocks == [] then []
    else
      var before, b := ToolsOf(blocks[..|blocks| - 1]), blocks[|blocks| - 1];
      if b.ToolBlock? then before + [Call(b.id, b.name, b.json)] else before
  }

  lemma {:induction false} Appended(blocks: seq<Block>, b: Block)
    ensures AllText(blocks + [b]) == AllText(blocks) + if b.TextBlock? then b.text else ""
    ensures ToolsOf(blocks + [b]) == ToolsOf(blocks) + if b.ToolBlock? then [Call(b.id, b.name, b.json)] else []
  {
    assert (blocks + [b])[..|blocks|] == blocks;
  }

  /** More text for a text block is that much more text, at the very end if no later block has any; no tool moves. */
  lemma {:induction false} TextGrows(blocks: seq<Block>, i: nat, more: string)
    requires i < |blocks| && blocks[i].TextBlock?
    ensures var grown := blocks[i := TextBlock(blocks[i].text + more)];
      && (LastText(blocks, i) ==> AllText(grown) == AllText(blocks) + more)
      && |AllText(grown)| == |AllText(blocks)| + |more|
      && ToolsOf(grown) == ToolsOf(blocks)
  {
    var n, grown := |blocks| - 1, blocks[i := TextBlock(blocks[i].text + more)];
    var front := blocks[..n];
    if i == n {
      assert grown[..n] == front;
    } else {
      assert grown[..n] == front[i := TextBlock(front[i].text + more)];
      TextGrows(front, i, more);
    }
  }

  /** More JSON for a tool block goes to that block's call, whatever other blocks are open. */
  lemma {:induction false} JsonGrows(blocks: seq<Block>, i: nat, more: string)
    requires i < |blocks| && blocks[i].ToolBlock?
    ensures var grown, k := blocks[i := blocks[i].(json := blocks[i].json + more)], |ToolsOf(blocks[..i])|;
      && AllText(grown) == AllText(blocks)
      && k < |ToolsOf(blocks)|
      && ToolsOf(grown) == ToolsOf(blocks)[k := ToolsOf(blocks)[k].(arguments := ToolsOf(blocks)[k].arguments + more)]
  {
    var n, grown := |blocks| - 1, blocks[i := blocks[i].(json := blocks[i].json + more)];
    var front := blocks[..n];
    if i == n {
      assert grown[..n] == front;
    } else {
      assert grown[..n] == front[i := front[i].(json := front[i].json + more)] && front[..i] == blocks[..i];
      JsonGrows(front, i, more);
    }
  }

  // ----- the normaliser follows the assembly -----

  ghost predicate Follows(v: Vars, r: Received, a: Assembly) {
    && r == Received(r.text, ToolsOf(a.blocks), None, None)
    && v.nextToolIndex == |ToolsOf(a.blocks)| && (v.sawToolUse <==> ToolsOf(a.blocks) != [])
    && v.promptTokens == a.promptTokens && v.completionTokens == a.completionTokens && v.stopReason == a.stopReason
    && IndexesRight(v, a.blocks)
  }

  /** Each tool block's index is the number of tool blocks before it. */
  ghost predicate IndexesRight(v: Vars, blocks: seq<Block>) {
    forall i {:trigger blocks[i]} :: 0 <= i < |blocks| && blocks[i].ToolBlock? ==>
      i in v.toolIndexByBlock && v.toolIndexByBlock[i] == |ToolsOf(blocks[..i])|
  }

  lemma CollectAppend(chunks: seq<Chunk>, c: Chunk)
    ensures Collect(chunks + [c]) == Feed(Collect(chunks), c)
  {
    assert (chunks + [c])[..|chunks|] == chunks;
  }

  lemma {:induction false} ToolsBefore(blocks: seq<Block>, blocks': seq<Block>, i: nat, k: nat)
    requires i < |blocks| <= |blocks'| && k <= |blocks|
    requires forall j :: 0 <= j < k ==> blocks[j].ToolBlock? == blocks'[j].ToolBlock?
    ensures |ToolsOf(blocks[..k])| == |ToolsOf(blocks'[..k])|
  {
    if k > 0 {
      ToolsBefore(blocks, blocks', i, k - 1);
      assert blocks[..k][..k - 1] == blocks[..k - 1] && blocks'[..k][..k - 1] == blocks'[..k - 1];
    }
  }

  ghost predicate KeepsStep(v: Vars, r: Received, a: Assembly, e: Event)
    requires MayFollow(a, e)
  {
    var r' := if Emitted(v, e) == [] then r else Feed(r, Emitted(v, e)[0]);
    && Follows(VarsAfter(v, e), r', Extend(a, e))
    && (TextFits(a, e) && r.text == AllText(a.blocks) ==> r'.text == AllText(Extend(a, e).blocks))
  }

  lemma {:induction false} StartKeepsStep(v: Vars, r: Received, a: Assembly, e: Event)
    requires Follows(v, r, a) && MayFollow(a, e) && e.BlockStart?
    ensures KeepsStep(v, r, a, e)
  {
    hide AllText, ToolsOf;
    var v', blocks, blocks' := VarsAfter(v, e), a.blocks, Extend(a, e).blocks;
    Appended(blocks, Opened(e.head));
    forall i | 0 <= i < |blocks'| && blocks'[i].ToolBlock?
      ensures i in v'.toolIndexByBlock && v'.toolIndexByBlock[i] == |ToolsOf(blocks'[..i])|
    {
      assert blocks'[..i] == blocks[..i];
      if i < |blocks| {
        assert blocks'[i] == blocks[i];
      } else {
        assert blocks[..i] == blocks;
      }
    }
  }

  lemma {:induction false} JsonKeepsStep(v: Vars, r: Received, a: Assembly, e: Event)
    requires Follows(v, r, a) && MayFollow(a, e) && e.BlockDelta? && e.delta.JsonDelta?
    ensures KeepsStep(v, r, a, e)
  {
    hide AllText, ToolsOf;
    var i := e.index.GetOr(0);
    JsonGrows(a.blocks, i, e.delta.json);
    assert a.blocks[i].ToolBlock?;
    IndexesKept(v, a.blocks, Extend(a, e).blocks);
  }

  /** One event keeps the client in step with the message spelled out so far; with its text too if the text fits. */
  lemma {:induction false} EventKeepsStep(v: Vars, r: Received, a: Assembly, e: Event)
    requires Follows(v, r, a) && MayFollow(a, e)
    ensures KeepsStep(v, r, a, e) && |Emitted(v, e)| <= 1
  {
    hide AllText, ToolsOf;
    match e
    case BlockStart(_, _) => StartKeepsStep(v, r, a, e);
    case BlockDelta(index, TextDelta(text)) =>
      TextGrows(a.blocks, index.GetOr(0), text);
      IndexesKept(v, a.blocks, Extend(a, e).blocks);
    case BlockDelta(_, JsonDelta(_)) => JsonKeepsStep(v, r, a, e);
    case _ =>
  }

  lemma {:induction false} IndexesKept(v: Vars, blocks: seq<Block>, blocks': seq<Block>)
    requires IndexesRight(v, blocks) && |blocks'| == |blocks|
    requires forall j :: 0 <= j < |blocks| ==> blocks[j].ToolBlock? == blocks'[j].ToolBlock?
    ensures IndexesRight(v, blocks')
  {
    forall i | 0 <= i < |blocks'| && blocks'[i].ToolBlock?
      ensures i in v.toolIndexByBlock && v.toolIndexByBlock[i] == |ToolsOf(blocks'[..i])|
    {
      assert blocks[i].ToolBlock?;
      ToolsBefore(blocks, blocks', i, i);
    }
  }

  lemma {:induction false} StreamFollowsMessage(events: seq<Event>)
    requires Assemble(events).Some?
    ensures Follows(Normalised(events).0, Collect(Normalised(events).1), Assemble(events).value)
    ensures TextInOrder(events) ==> Collect(Normalised(events).1).text == AllText(Assemble(events).value.blocks)
  {
    if events != [] {
      var before, e := events[..|events| - 1], events[|events| - 1];
      StreamFollowsMessage(before);
      var v, chunks := Normalised(before).0, Normalised(before).1;
      EventKeepsStep(v, Collect(chunks), Assemble(before).value, e);
      if Emitted(v, e) == [] {
        assert chunks + [] == chunks;
      } else {
        assert Emitted(v, e) == [Emitted(v, e)[0]];
        CollectAppend(chunks, Emitted(v, e)[0]);
      }
    }
  }

  // ----- agreement of the two paths -----

  /** The input of a tool block whose JSON fragments join to `json`; a tool called without arguments sends none. */
  function ToolInput<J>(json: string, parse: string -> J, empty: J): J {
    if json == "" then empty else parse(json)
  }

  /** The message response the provider would give for the assembled message. */
  function AsResponse<J>(blocks: seq<Block>, parse: string -> J, empty: J): (r: seq<ResponseBlock<J>>)
    ensures |r| == |blocks|
  {
    if blocks == [] then []
    else
      AsResponse(blocks[..|blocks| - 1], parse, empty) + [AsResponseBlock(blocks[|blocks| - 1], parse, empty)]
  }

  function PrintedCall<J>(c: Call, parse: string -> J, stringify: J -> string, empty: J): Call {
    c.(arguments := stringify(ToolInput(c.arguments, parse, empty)))
  }

  /** The calls with their arguments read and printed again. */
  function Printed<J>(calls: seq<Call>, parse: string -> J, stringify: J -> string, empty: J): (r: seq<Call>)
    ensures |r| == |calls|
  {
    seq(|calls|, k requires 0 <= k < |calls| => PrintedCall(calls[k], parse, stringify, empty))
  }

  predicate Named(c: Call) {
    c.id.Some? && c.name.Some?
  }

  /** The calls with an id and a name. */
  function NamedOnly(calls: seq<Call>): (r: seq<Call>)
    ensures |r| <= |calls|
    ensures |r| == |calls| <==> forall k :: 0 <= k < |calls| ==> Named(calls[k])
    ensures |r| == |calls| ==> r == calls
  {
    if calls == [] then []
    else
      var rest, c := NamedOnly(calls[..|calls| - 1]), calls[|calls| - 1];
      if Named(c) then rest + [c] else rest
  }

  lemma ResponseAppend<J>(rs: seq<ResponseBlock<J>>, b: ResponseBlock<J>, stringify: J -> string, empty: J)
    ensures Text(rs + [b]) == if b.ResponseText? && b.text.Some? then Some(Text(rs).GetOr("") + b.text.value) else Text(rs)
    ensures Calls(rs + [b], stringify, empty) == Calls(rs, stringify, empty)
      + if b.ResponseTool? && b.id.Some? && b.name.Some? then [Call(b.id, b.name, stringify(b.input.GetOr(empty)))] else []
  {
    assert (rs + [b])[..|rs|] == rs;
  }

  lemma NamedAppend(calls: seq<Call>, c: Call)
    ensures NamedOnly(calls + [c]) == NamedOnly(calls) + if Named(c) then [c] else []
  {
    assert (calls + [c])[..|calls|] == calls;
  }

  lemma PrintedAppend<J>(calls: seq<Call>, c: Call, parse: string -> J, stringify: J -> string, empty: J)
    ensures Printed(calls + [c], parse, stringify, empty)
      == Printed(calls, parse, stringify, empty) + [PrintedCall(c, parse, stringify, empty)]
  {
  }

  /** One block of a response. */
  function AsResponseBlock<J>(b: Block, parse: string -> J, empty: J): ResponseBlock<J> {
    match b
    case TextBlock(text) => ResponseText(Some(text))
    case ToolBlock(id, name, json) => ResponseTool(id, name, Some(ToolInput(json, parse, empty)))
    case OtherBlock => ResponseOther
  }

  lemma {:induction false} ResponseParts<J>(blocks: seq<Block>, parse: string -> J, stringify: J -> string, empty: J)
    ensures Text(AsResponse(blocks, parse, empty)).GetOr("") == AllText(blocks)
    ensures Text(AsResponse(blocks, parse, empty)).None? <==> forall k :: 0 <= k < |blocks| ==> !blocks[k].TextBlock?
    ensures Calls(AsResponse(blocks, parse, empty), stringify, empty) ==
      Printed(NamedOnly(ToolsOf(blocks)), parse, stringify, empty)
  {
    if blocks != [] {
      hide Text, Calls, Printed, NamedOnly, PrintedCall, ToolInput, AsResponseBlock, AllText, ToolsOf;
      var front, b := blocks[..|blocks| - 1], blocks[|blocks| - 1];
      var rs := AsResponse(front, parse, empty);
      ResponseParts(front, parse, stringify, empty);
      ResponseAppend(rs, AsResponseBlock(b, parse, empty), stringify, empty);
      assert AsResponse(blocks, parse, empty) == rs + [AsResponseBlock(b, parse, empty)];
      assert blocks == front + [b];
      Appended(front, b);
      BlockParts(ToolsOf(front), b, parse, stringify, empty);
    } else {
      assert Printed(NamedOnly(ToolsOf(blocks)), parse, stringify, empty) == [];
    }
  }

  /** What one block adds to a response. */
  lemma BlockParts<J>(calls: seq<Call>, b: Block, parse: string -> J, stringify: J -> string, empty: J)
    ensures var r := AsResponseBlock(b, parse, empty);
      && r.ResponseText? == b.TextBlock? && (b.TextBlock? ==> r.text == Some(b.text))
      && Printed(NamedOnly(calls + if b.ToolBlock? then [Call(b.id, b.name, b.json)] else []), parse, stringify, empty)
        == Printed(NamedOnly(calls), parse, stringify, empty)
          + if r.ResponseTool? && r.id.Some? && r.name.Some?
            then [Call(r.id, r.name, stringify(r.input.GetOr(empty)))] else []
  {
    hide Printed, NamedOnly, PrintedCall, ToolInput;
    if b.ToolBlock? {
      var c := Call(b.id, b.name, b.json);
      NamedAppend(calls, c);
      CallPrinted(c, parse, stringify, empty);
      PrintedAppend(NamedOnly(calls), c, parse, stringify, empty);
      assert NamedOnly(calls) + [] == NamedOnly(calls);
    } else {
      assert calls + [] == calls;
    }
  }

  lemma CallPrinted<J>(c: Call, parse: string -> J, stringify: J -> string, empty: J)
    ensures PrintedCall(c, parse, stringify, empty) == Call(c.id, c.name, stringify(ToolInput(c.arguments, parse, empty)))
  {
  }

  /** What a client holds once the stream has ended with a message_stop. */
  function Got(body: seq<Event>, wantUsage: bool): Received {
    Collect(Normalised(body).1 + Closing(Normalised(body).0, wantUsage))
  }

  /** What the non-streaming translator returns for the same message. */
  function Answer<J>(body: seq<Event>, parse: string -> J, stringify: J -> string, empty: J): Response
    requires Assemble(body).Some?
  {
    var a := Assemble(body).value;
    Translated(AsResponse(a.blocks, parse, empty), a.stopReason, a.promptTokens, a.completionTokens, stringify, empty)
  }

  /** The stop reasons that decide the finish reason without asking for tools. */
  predicate Decisive(reason: Option<string>) {
    reason.Some? && reason.value in ["max_tokens", "model_context_window_exceeded", "refusal", "tool_use"]
  }

  /** The message has a named tool call, or no tool call at all. */
  predicate SomeNamed(calls: seq<Call>) {
    NamedOnly(calls) != [] || calls == []
  }

  lemma FinishReasons(reason: Option<string>, calls: seq<Call>)
    ensures MapStopReason(reason, calls != []) == MapStopReason(reason, NamedOnly(calls) != []) <==>
      SomeNamed(calls) || Decisive(reason)
  {
  }

  predicate AllNamed(calls: seq<Call>) {
    forall k :: 0 <= k < |calls| ==> Named(calls[k])
  }

  lemma ToolsNamedStep(before: seq<Event>, e: Event)
    ensures ToolsNamed(before + [e]) <==>
      ToolsNamed(before) && (e.BlockStart? && e.head.ToolHead? ==> e.head.id.Some? && e.head.name.Some?)
  {
    var all := before + [e];
    assert all[|before|] == e;
    assert forall k :: 0 <= k < |before| ==> all[k] == before[k];
  }

  /** One event names no call it does not open. */
  lemma NamedStep(a: Assembly, e: Event)
    requires MayFollow(a, e)
    ensures AllNamed(ToolsOf(Extend(a, e).blocks)) <==>
      AllNamed(ToolsOf(a.blocks)) && (e.BlockStart? && e.head.ToolHead? ==> e.head.id.Some? && e.head.name.Some?)
  {
    hide ToolsOf, AllText;
    var calls := ToolsOf(a.blocks);
    match e
    case BlockStart(_, head) =>
      Appended(a.blocks, Opened(head));
      if head.ToolHead? {
        var c := Call(head.id, head.name, "");
        assert (calls + [c])[|calls|] == c;
        assert forall k :: 0 <= k < |calls| ==> (calls + [c])[k] == calls[k];
      } else {
        assert ToolsOf(Extend(a, e).blocks) == calls;
      }
    case BlockDelta(index, TextDelta(text)) =>
      TextGrows(a.blocks, index.GetOr(0), text);
    case BlockDelta(index, JsonDelta(json)) =>
      JsonGrows(a.blocks, index.GetOr(0), json);
      var grown := ToolsOf(Extend(a, e).blocks);
      assert forall k :: 0 <= k < |calls| ==> Named(grown[k]) == Named(calls[k]);
    case _ =>
  }

  lemma {:induction false} NamedBlocks(body: seq<Event>)
    requires Assemble(body).Some?
    ensures ToolsNamed(body) <==> AllNamed(ToolsOf(Assemble(body).value.blocks))
  {
    if body != [] {
      hide ToolsOf, AllNamed, ToolsNamed, Extend, MayFollow;
      var before, e := body[..|body| - 1], body[|body| - 1];
      NamedBlocks(before);
      NamedStep(Assemble(before).value, e);
      assert body == before + [e];
      ToolsNamedStep(before, e);
    }
  }

  /**
   * The two paths, for every stream whose blocks open in index order and whose deltas go to open
   * blocks of their kind. Usage always agrees. The tool calls agree exactly if every tool block
   * opens with an id and a name. The finish reason agrees exactly if some tool call has both (or there
   * is none) or the stop reason decides alone. The text agrees if text blocks start empty and are not interleaved.
   */
  lemma {:induction false} AgreementExactly<J>(
      body: seq<Event>, wantUsage: bool, parse: string -> J, stringify: J -> string, empty: J)
    requires Assemble(body).Some?
    ensures var a, got, answer := Assemble(body).value, Got(body, wantUsage), Answer(body, parse, stringify, empty);
      && got.usage == (if wantUsage then Some((answer.promptTokens, answer.completionTokens)) else None)
      && (Printed(got.calls, parse, stringify, empty) == answer.calls <==> ToolsNamed(body))
      && (got.finish == Some(answer.finish) <==> SomeNamed(got.calls) || Decisive(a.stopReason))
      && (TextInOrder(body) ==> got.text == answer.content.GetOr(""))
  {
    hide Normalised, Collect, Text, Calls, AllText, ToolsOf, Printed, PrintedCall, NamedOnly, AsResponse, Closing, MapStopReason;
    hide TextInOrder, ToolsNamed, SomeNamed, Decisive;
    var a, v, chunks := Assemble(body).value, Normalised(body).0, Normalised(body).1;
    StreamFollowsMessage(body);
    ResponseParts(a.blocks, parse, stringify, empty);
    ClosingCollected(v, chunks, wantUsage);
    NamedBlocks(body);
    FinishReasons(a.stopReason, ToolsOf(a.blocks));
    PrintedEmpty(NamedOnly(ToolsOf(a.blocks)), parse, stringify, empty);
  }

  lemma PrintedEmpty<J>(calls: seq<Call>, parse: string -> J, stringify: J -> string, empty: J)
    ensures Printed(calls, parse, stringify, empty) == [] <==> calls == []
  {
  }

  /**
   * For every well-formed stream, a client that accumulates the emitted chunks holds what the
   * non-streaming translator returns for the assembled message: the same text, the same tool ids
   * and names in the same order, arguments that are the same JSON value, the same finish reason
   * and the same usage.
   */
  lemma {:induction false} StreamAgreesWithResponse<J>(
      body: seq<Event>, wantUsage: bool, parse: string -> J, stringify: J -> string, empty: J)
    requires WellFormed(body)
    ensures var got, answer := Got(body, wantUsage), Answer(body, parse, stringify, empty);
      && got.text == answer.content.GetOr("")
      && Printed(got.calls, parse, stringify, empty) == answer.calls
      && got.finish == Some(answer.finish)
      && got.usage == if wantUsage then Some((answer.promptTokens, answer.completionTokens)) else None
  {
    hide Got, Answer, Printed, PrintedCall, Collect, Normalised, Closing;
    AgreementExactly(body, wantUsage, parse, stringify, empty);
    NamedBlocks(body);
    StreamFollowsMessage(body);
    GotCalls(body, wantUsage);
  }

  lemma GotCalls(body: seq<Event>, wantUsage: bool)
    requires Assemble(body).Some?
    ensures Got(body, wantUsage).calls == ToolsOf(Assemble(body).value.blocks)
  {
    hide Normalised, Collect, Closing, ToolsOf;
    StreamFollowsMessage(body);
    ClosingCollected(Normalised(body).0, Normalised(body).1, wantUsage);
  }

  lemma ClosingCollected(v: Vars, chunks: seq<Chunk>, wantUsage: bool)
    ensures var before, after := Collect(chunks), Collect(chunks + Closing(v, wantUsage));
      && after.text == before.text && after.calls == before.calls
      && after.finish == Some(MapStopReason(v.stopReason, v.sawToolUse))
      && after.usage == if wantUsage then Some((v.promptTokens, v.completionTokens)) else before.usage
  {
    hide Collect;
    var finish, usage := FinishChunk(MapStopReason(v.stopReason, v.sawToolUse)), UsageChunk(v.promptTokens, v.completionTokens);
    CollectAppend(chunks, finish);
    if wantUsage {
      CollectAppend(chunks + [finish], usage);
      assert chunks + Closing(v, true) == chunks + [finish] + [usage];
    } else {
      assert chunks + Closing(v, false) == chunks + [finish];
    }
  }

  /** All JSON fragments sent for block `i`, joined in order. */
  function Fragments(events: seq<Event>, i: int): string {
    if events == [] then ""
    else
      var e := events[|events| - 1];
      Fragments(events[..|events| - 1], i) + FragmentOf(e, i)
  }

  /** The JSON one event brings for block `i`. */
  function FragmentOf(e: Event, i: int): string {
    if e.BlockDelta? && e.delta.JsonDelta? && e.index.GetOr(0) == i then e.delta.json else ""
  }

  lemma FragmentStep(a: Assembly, e: Event, i: nat)
    requires MayFollow(a, e)
    ensures var blocks, blocks' := a.blocks, Extend(a, e).blocks;
      && |blocks| <= |blocks'|
      && (i < |blocks| ==> blocks'[i].ToolBlock? == blocks[i].ToolBlock?)
      && (i < |blocks| && blocks[i].ToolBlock? ==> blocks'[i].json == blocks[i].json + FragmentOf(e, i))
      && (i >= |blocks| || !blocks[i].ToolBlock? ==> FragmentOf(e, i) == "")
      && (|blocks| <= i < |blocks'| && blocks'[i].ToolBlock? ==> blocks'[i].json == "")
  {
  }

  lemma {:induction false} FragmentsStayTogether(body: seq<Event>, i: nat)
    requires Assemble(body).Some?
    ensures var blocks := Assemble(body).value.blocks;
      && (i < |blocks| && blocks[i].ToolBlock? ==> blocks[i].json == Fragments(body, i))
      && (i >= |blocks| || !blocks[i].ToolBlock? ==> Fragments(body, i) == "")
  {
    if body != [] {
      var before, e := body[..|body| - 1], body[|body| - 1];
      FragmentsStayTogether(before, i);
      FragmentStep(Assemble(before).value, e, i);
      hide Extend, MayFollow;
    }
  }

  /** Each tool index collects exactly its own block's fragments, even when tool blocks interleave. */
  lemma {:induction false} EachCallGetsItsFragments(body: seq<Event>, i: nat)
    requires Assemble(body).Some? && i < |Assemble(body).value.blocks| && Assemble(body).value.blocks[i].ToolBlock?
    ensures var blocks := Assemble(body).value.blocks;
      var k, calls := |ToolsOf(blocks[..i])|, Collect(Normalised(body).1).calls;
      k < |calls| && calls[k] == Call(blocks[i].id, blocks[i].name, Fragments(body, i))
  {
    StreamFollowsMessage(body);
    FragmentsStayTogether(body, i);
    CallOfBlock(Assemble(body).value.blocks, i);
  }

  lemma {:induction false} CallOfBlock(blocks: seq<Block>, i: nat)
    requires i < |blocks| && blocks[i].ToolBlock?
    ensures var k := |ToolsOf(blocks[..i])|;
      k < |ToolsOf(blocks)| && ToolsOf(blocks)[k] == Call(blocks[i].id, blocks[i].name, blocks[i].json)
  {
    var n := |blocks| - 1;
    if i < n {
      CallOfBlock(blocks[..n], i);
      assert blocks[..n][..i] == blocks[..i];
    }
  }

  /**
   * A tool called without arguments, so that no fragment comes for it: the stream leaves the
   * client with "" where the response has the printed empty object. With arguments the two are
   * the fragments and their value printed again.
   */
  lemma {:induction false} ArgumentsOfCall<J>(
      body: seq<Event>, wantUsage: bool, i: nat, parse: string -> J, stringify: J -> string, empty: J)
    requires WellFormed(body) && i < |Assemble(body).value.blocks| && Assemble(body).value.blocks[i].ToolBlock?
    ensures var k, got, answer := |ToolsOf(Assemble(body).value.blocks[..i])|, Got(body, wantUsage), Answer(body, parse, stringify, empty);
      && k < |got.calls| == |answer.calls|
      && got.calls[k].arguments == Fragments(body, i)
      && answer.calls[k].arguments == stringify(if Fragments(body, i) == "" then empty else parse(Fragments(body, i)))
      && (Fragments(body, i) == "" && stringify(empty) != "" ==> got.calls != answer.calls)
  {
    hide Got, Answer, Collect, Normalised, Closing, ToolsOf, Fragments, WellFormed, Assemble;
    StreamAgreesWithResponse(body, wantUsage, parse, stringify, empty);
    WellFormedAssembles(body);
    EachCallGetsItsFragments(body, i);
    StreamFollowsMessage(body);
    GotCalls(body, wantUsage);
  }

  lemma WellFormedAssembles(body: seq<Event>)
    requires WellFormed(body)
    ensures Assemble(body).Some?
  {
  }
}
