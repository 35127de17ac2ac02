/** Request translation: OpenAI chat messages into Anthropic messages and Gemini contents. */
module ChatRequests {
  import opened Shared
  import opened TurnMerging

  // ----- the OpenAI side -----

  datatype Part = TextPart(text: string) | ImagePart(url: string)

  datatype Content = Missing | Text(text: string) | Parts(parts: seq<Part>)

  datatype ToolCall = ToolCall(id: string, name: string, arguments: string)

  datatype Message =
    | SystemMessage(content: Content)
    | UserMessage(content: Content)
    | AssistantMessage(content: Content, calls: seq<ToolCall>)
    | ToolMessage(callId: string, content: Content)

  // ----- what a request says -----

  /** A content as its parts; an empty string has none. */
  function PartsOf(c: Content): seq<Part> {
    match c
    case Missing => []
    case Text(s) => if s == "" then [] else [TextPart(s)]
    case Parts(ps) => ps
  }

  function TextsIn(ps: seq<Part>): seq<string> {
    if ps == [] then [] else TextIn(ps[0]) + TextsIn(ps[1..])
  }

  function TextIn(p: Part): seq<string> {
    if p.TextPart? then [p.text] else []
  }

  function Joined(texts: seq<string>): string {
    if texts == [] then "" else texts[0] + Joined(texts[1..])
  }

  /** The whole text of a content. */
  function WholeText(c: Content): string {
    Joined(TextsIn(PartsOf(c)))
  }

  /** Everything `g` finds in the messages, in order. */
  function Gather<T>(ms: seq<Message>, g: Message -> seq<T>): seq<T> {
    if ms == [] then [] else Gather(ms[..|ms| - 1], g) + g(ms[|ms| - 1])
  }

  function UserParts(): Message -> seq<Part> {
    (m: Message) => if m.UserMessage? then PartsOf(m.content) else []
  }

  function AssistantTexts(): Message -> seq<string> {
    (m: Message) => if m.AssistantMessage? then TextsIn(PartsOf(m.content)) else []
  }

  function AssistantCalls(): Message -> seq<ToolCall> {
    (m: Message) => if m.AssistantMessage? then m.calls else []
  }

  /** The tool messages: the id each answers and its text. */
  function ToolReplies(): Message -> seq<(string, string)> {
    (m: Message) => if m.ToolMessage? then [(m.callId, WholeText(m.content))] else []
  }

  function SystemSayings(): Message -> seq<string> {
    (m: Message) => if m.SystemMessage? then [WholeText(m.content)] else []
  }

  /** All tool calls of the request's assistant messages, in order. */
  function AllCalls(ms: seq<Message>): seq<ToolCall> {
    Gather(ms, AssistantCalls())
  }

  /** One thing a conversation holds, and on whose side. */
  datatype Item =
    | Said(role: Role, part: Part)
    | Called(role: Role, id: Option<string>, name: string, arguments: string)
    | Answered(role: Role, toWhom: string, text: string)

  function SaidBy(role: Role, ps: seq<Part>): (items: seq<Item>)
    ensures |items| == |ps| && forall k :: 0 <= k < |ps| ==> items[k] == Said(role, ps[k])
  {
    seq(|ps|, k requires 0 <= k < |ps| => Said(role, ps[k]))
  }

  function AsTexts(texts: seq<string>): (ps: seq<Part>)
    ensures |ps| == |texts| && forall k :: 0 <= k < |ps| ==> ps[k] == TextPart(texts[k])
  {
    seq(|texts|, k requires 0 <= k < |texts| => TextPart(texts[k]))
  }

  /** The assistant's calls, with their ids or without. */
  function CallsMade(calls: seq<ToolCall>, ids: bool): (items: seq<Item>)
    ensures |items| == |calls|
    ensures forall k :: 0 <= k < |calls| ==>
      items[k] == Called(Model, if ids then Some(calls[k].id) else None, calls[k].name, calls[k].arguments)
  {
    seq(|calls|, k requires 0 <= k < |calls| =>
      Called(Model, if ids then Some(calls[k].id) else None, calls[k].name, calls[k].arguments))
  }

  /** Everything a message holds, in order; a tool's answer goes to `addressee` of its call's id. */
  function ItemsOf(ids: bool, addressee: string -> string): Message -> seq<Item> {
    (m: Message) =>
      match m
      case SystemMessage(_) => []
      case UserMessage(c) => SaidBy(User, PartsOf(c))
      case AssistantMessage(c, calls) => SaidBy(Model, AsTexts(TextsIn(PartsOf(c)))) + CallsMade(calls, ids)
      case ToolMessage(id, c) => [Answered(User, addressee(id), WholeText(c))]
  }

  // ----- what is found in turns -----

  /** Everything `f` finds in the pairs, in order. */
  function Found<B, T>(pairs: seq<(Role, B)>, f: (Role, B) -> seq<T>): seq<T> {
    if pairs == [] then [] else Found(pairs[..|pairs| - 1], f) + f(pairs[|pairs| - 1].0, pairs[|pairs| - 1].1)
  }

  lemma {:induction false} FoundAppend<B, T>(a: seq<(Role, B)>, b: seq<(Role, B)>, f: (Role, B) -> seq<T>)
    ensures Found(a + b, f) == Found(a, f) + Found(b, f)
  {
    if b == [] {
      assert a + b == a;
    } else {
      assert (a + b)[..|a + b| - 1] == a + b[..|b| - 1];
      FoundAppend(a, b[..|b| - 1], f);
    }
  }

  /** One thing in every block. */
  lemma {:induction false} FoundEach<B, T>(role: Role, blocks: seq<B>, f: (Role, B) -> seq<T>, ts: seq<T>)
    requires |ts| == |blocks| && forall k :: 0 <= k < |blocks| ==> f(role, blocks[k]) == [ts[k]]
    ensures Found(Tagged(Turn(role, blocks)), f) == ts
  {
    if blocks != [] {
      var n := |blocks| - 1;
      assert Tagged(Turn(role, blocks))[..n] == Tagged(Turn(role, blocks[..n]));
      FoundEach(role, blocks[..n], f, ts[..n]);
      assert ts == ts[..n] + [ts[n]];
    }
  }

  /** Nothing in any block. */
  lemma {:induction false} FoundNone<B, T>(role: Role, blocks: seq<B>, f: (Role, B) -> seq<T>)
    requires forall k :: 0 <= k < |blocks| ==> f(role, blocks[k]) == []
    ensures Found(Tagged(Turn(role, blocks)), f) == []
  {
    if blocks != [] {
      var n := |blocks| - 1;
      assert Tagged(Turn(role, blocks))[..n] == Tagged(Turn(role, blocks[..n]));
      FoundNone(role, blocks[..n], f);
    }
  }

  lemma FoundOne<B, T>(role: Role, block: B, f: (Role, B) -> seq<T>)
    ensures Found([(role, block)], f) == f(role, block)
  {
    assert [(role, block)][..0] == [];
  }

  // ----- the adapters' helpers -----

  /** Only the text of a content, as one string. */
  function FlattenText(c: Content): string {
    match c
    case Missing => ""
    case Text(s) => s
    case Parts(ps) => TextOf(ps)
  }

  function TextOf(ps: seq<Part>): string {
    if ps == [] then ""
    else TextOf(ps[..|ps| - 1]) + if ps[|ps| - 1].TextPart? then ps[|ps| - 1].text else ""
  }

  /** The text parts of a content; an empty string gives none. */
  function TextOnly(c: Content): seq<string> {
    match c
    case Missing => []
    case Text(s) => if s == "" then [] else [s]
    case Parts(ps) => TextParts(ps)
  }

  function TextParts(ps: seq<Part>): seq<string> {
    if ps == [] then []
    else TextParts(ps[..|ps| - 1]) + if ps[|ps| - 1].TextPart? then [ps[|ps| - 1].text] else []
  }

  lemma TextsInCons(p: Part, ps: seq<Part>)
    ensures TextsIn([p] + ps) == TextIn(p) + TextsIn(ps)
  {
    assert ([p] + ps)[1..] == ps;
  }

  lemma {:induction false} TextsInAppend(ps: seq<Part>, p: Part)
    ensures TextsIn(ps + [p]) == TextsIn(ps) + TextIn(p)
  {
    if ps == [] {
      assert ps + [p] == [p] + [];
      TextsInCons(p, []);
    } else {
      hide TextIn, TextsIn;
      var rest := ps[1..];
      assert ps == [ps[0]] + rest && ps + [p] == [ps[0]] + (rest + [p]);
      TextsInCons(ps[0], rest);
      TextsInCons(ps[0], rest + [p]);
      TextsInAppend(rest, p);
    }
  }

  lemma {:induction false} JoinedAppend(texts: seq<string>, t: string)
    ensures Joined(texts + [t]) == Joined(texts) + t
  {
    if texts == [] {
      assert texts + [t] == [t] && [t][1..] == [];
    } else {
      assert (texts + [t])[1..] == texts[1..] + [t];
      JoinedAppend(texts[1..], t);
    }
  }

  lemma NoTexts()
    ensures TextsIn([]) == [] && Joined([]) == ""
  {
  }

  lemma {:induction false} PartTexts(ps: seq<Part>)
    ensures TextParts(ps) == TextsIn(ps) && TextOf(ps) == Joined(TextsIn(ps))
  {
    hide TextsIn, Joined;
    NoTexts();
    if ps != [] {
      var front, p := ps[..|ps| - 1], ps[|ps| - 1];
      PartTexts(front);
      TextsInAppend(front, p);
      assert ps == front + [p];
      if p.TextPart? {
        JoinedAppend(TextsIn(front), p.text);
      } else {
        assert TextsIn(front) + [] == TextsIn(front) && TextOf(front) + "" == TextOf(front);
      }
    }
  }

  lemma ContentTexts(c: Content)
    ensures TextOnly(c) == TextsIn(PartsOf(c)) && FlattenText(c) == WholeText(c)
  {
    match c
    case Missing =>
    case Text(s) => OneText(s);
    case Parts(ps) => PartTexts(ps);
  }

  lemma OneText(s: string)
    ensures TextsIn([TextPart(s)]) == [s] && Joined([s]) == s
  {
    assert [TextPart(s)][1..] == [] && [s][1..] == [];
  }

  /** The system parts are the whole texts of the system messages. */
  lemma {:induction false} SystemTextsSaid(ms: seq<Message>)
    ensures SystemTexts(ms) == Gather(ms, SystemSayings())
  {
    if ms != [] {
      SystemTextsSaid(ms[..|ms| - 1]);
      if ms[|ms| - 1].SystemMessage? {
        ContentTexts(ms[|ms| - 1].content);
      }
    }
  }

  // ----- the Anthropic side -----

  datatype Block =
    | TextBlock(text: string)
    | ImageBlock(url: string)
    | ToolUse(id: string, name: string, arguments: string)
    | ToolResult(toolUseId: string, content: string)

  function PartToBlock(p: Part): Block {
    if p.TextPart? then TextBlock(p.text) else ImageBlock(p.url)
  }

  function ContentToBlocks(c: Content): seq<Block> {
    match c
    case Missing => []
    case Text(s) => if s == "" then [] else [TextBlock(s)]
    case Parts(ps) => seq(|ps|, k requires 0 <= k < |ps| => PartToBlock(ps[k]))
  }

  function TextBlocks(texts: seq<string>): (blocks: seq<Block>)
    ensures |blocks| == |texts| && forall k :: 0 <= k < |texts| ==> blocks[k] == TextBlock(texts[k])
  {
    seq(|texts|, k requires 0 <= k < |texts| => TextBlock(texts[k]))
  }

  function AssistantBlocks(c: Content, calls: seq<ToolCall>): seq<Block> {
    TextBlocks(TextOnly(c)) + ToolUses(calls)
  }

  function ToolUses(calls: seq<ToolCall>): seq<Block> {
    seq(|calls|, k requires 0 <= k < |calls| => ToolUse(calls[k].id, calls[k].name, calls[k].arguments))
  }

  /** The (role, block) pairs one message stands for. */
  function AnthropicPairs(m: Message): seq<(Role, Block)> {
    match m
    case SystemMessage(_) => []
    case UserMessage(c) => Tagged(Turn(User, ContentToBlocks(c)))
    case AssistantMessage(c, calls) => Tagged(Turn(Model, AssistantBlocks(c, calls)))
    case ToolMessage(id, c) => [(User, ToolResult(id, FlattenText(c)))]
  }

  function AllAnthropicPairs(ms: seq<Message>): seq<(Role, Block)> {
    if ms == [] then [] else AllAnthropicPairs(ms[..|ms| - 1]) + AnthropicPairs(ms[|ms| - 1])
  }

  /** The system messages' texts, in order. */
  function SystemTexts(ms: seq<Message>): seq<string> {
    if ms == [] then []
    else
      var m := ms[|ms| - 1];
      SystemTexts(ms[..|ms| - 1]) + if m.SystemMessage? then [FlattenText(m.content)] else []
  }

  // ----- what the Anthropic turns say -----

  /** The text and images of a role's turns. */
  function PartsBy(role: Role): (Role, Block) -> seq<Part> {
    (r: Role, b: Block) =>
      if r == role && b.TextBlock? then [TextPart(b.text)]
      else if r == role && b.ImageBlock? then [ImagePart(b.url)]
      else []
  }

  function CallsBy(role: Role): (Role, Block) -> seq<ToolCall> {
    (r: Role, b: Block) => if r == role && b.ToolUse? then [ToolCall(b.id, b.name, b.arguments)] else []
  }

  function ResultsBy(role: Role): (Role, Block) -> seq<(string, string)> {
    (r: Role, b: Block) => if r == role && b.ToolResult? then [(b.toolUseId, b.content)] else []
  }

  function AssistantParts(): Message -> seq<Part> {
    (m: Message) => if m.AssistantMessage? then AsTexts(TextsIn(PartsOf(m.content))) else []
  }

  /** What a block is, and on whose side. */
  function AsItem(): (Role, Block) -> seq<Item> {
    (r: Role, b: Block) =>
      match b
      case TextBlock(text) => [Said(r, TextPart(text))]
      case ImageBlock(url) => [Said(r, ImagePart(url))]
      case ToolUse(id, name, arguments) => [Called(r, Some(id), name, arguments)]
      case ToolResult(id, text) => [Answered(r, id, text)]
  }

  function Itself(): string -> string {
    (id: string) => id
  }

  /**
   * The user turns hold the user messages' text and images and the tool messages' results; the
   * assistant turns the assistant messages' text and tool calls; and all of it in the request's order.
   */
  ghost predicate AnthropicSays(request: seq<Message>, pairs: seq<(Role, Block)>) {
    && Found(pairs, PartsBy(User)) == Gather(request, UserParts())
    && Found(pairs, PartsBy(Model)) == Gather(request, AssistantParts())
    && Found(pairs, CallsBy(Model)) == AllCalls(request) && Found(pairs, CallsBy(User)) == []
    && Found(pairs, ResultsBy(User)) == Gather(request, ToolReplies()) && Found(pairs, ResultsBy(Model)) == []
    && Found(pairs, AsItem()) == Gather(request, ItemsOf(true, Itself()))
  }

  lemma {:induction false} UserFound(c: Content)
    ensures var pairs := AnthropicPairs(UserMessage(c));
      && Found(pairs, PartsBy(User)) == PartsOf(c) && Found(pairs, PartsBy(Model)) == []
      && Found(pairs, CallsBy(User)) == [] && Found(pairs, CallsBy(Model)) == []
      && Found(pairs, ResultsBy(User)) == [] && Found(pairs, ResultsBy(Model)) == []
      && Found(pairs, AsItem()) == SaidBy(User, PartsOf(c))
  {
    hide Found;
    var blocks := ContentToBlocks(c);
    FoundEach(User, blocks, AsItem(), SaidBy(User, PartsOf(c)));
    FoundEach(User, blocks, PartsBy(User), PartsOf(c));
    FoundNone(User, blocks, PartsBy(Model));
    FoundNone(User, blocks, CallsBy(User));
    FoundNone(User, blocks, CallsBy(Model));
    FoundNone(User, blocks, ResultsBy(User));
    FoundNone(User, blocks, ResultsBy(Model));
  }

  lemma {:induction false} AssistantPartsFound(texts: seq<string>, calls: seq<ToolCall>)
    ensures var pairs := Tagged(Turn(Model, TextBlocks(texts) + ToolUses(calls)));
      Found(pairs, PartsBy(Model)) == AsTexts(texts) && Found(pairs, CallsBy(Model)) == calls
  {
    hide Found;
    var said, made := TextBlocks(texts), ToolUses(calls);
    TaggedConcat(Model, said, made);
    FoundAppend(Tagged(Turn(Model, said)), Tagged(Turn(Model, made)), PartsBy(Model));
    FoundAppend(Tagged(Turn(Model, said)), Tagged(Turn(Model, made)), CallsBy(Model));
    FoundEach(Model, said, PartsBy(Model), AsTexts(texts));
    FoundNone(Model, made, PartsBy(Model));
    FoundNone(Model, said, CallsBy(Model));
    FoundEach(Model, made, CallsBy(Model), calls);
  }

  lemma {:induction false} AssistantItemsFound(texts: seq<string>, calls: seq<ToolCall>)
    ensures var pairs := Tagged(Turn(Model, TextBlocks(texts) + ToolUses(calls)));
      && Found(pairs, PartsBy(User)) == [] && Found(pairs, CallsBy(User)) == []
      && Found(pairs, ResultsBy(User)) == [] && Found(pairs, ResultsBy(Model)) == []
      && Found(pairs, AsItem()) == SaidBy(Model, AsTexts(texts)) + CallsMade(calls, true)
  {
    hide Found;
    var all := TextBlocks(texts) + ToolUses(calls);
    FoundEach(Model, all, AsItem(), SaidBy(Model, AsTexts(texts)) + CallsMade(calls, true));
    FoundNone(Model, all, PartsBy(User));
    FoundNone(Model, all, CallsBy(User));
    FoundNone(Model, all, ResultsBy(User));
    FoundNone(Model, all, ResultsBy(Model));
  }

  lemma {:induction false} AssistantFound(c: Content, calls: seq<ToolCall>)
    ensures var pairs := AnthropicPairs(AssistantMessage(c, calls));
      && Found(pairs, PartsBy(User)) == [] && Found(pairs, PartsBy(Model)) == AsTexts(TextsIn(PartsOf(c)))
      && Found(pairs, CallsBy(User)) == [] && Found(pairs, CallsBy(Model)) == calls
      && Found(pairs, ResultsBy(User)) == [] && Found(pairs, ResultsBy(Model)) == []
      && Found(pairs, AsItem()) == SaidBy(Model, AsTexts(TextsIn(PartsOf(c)))) + CallsMade(calls, true)
  {
    hide Found, TextOnly, TextsIn, PartsOf, PartsBy, CallsBy, ResultsBy, AsItem, ToolUses;
    ContentTexts(c);
    AssistantPartsFound(TextOnly(c), calls);
    AssistantItemsFound(TextOnly(c), calls);
  }

  lemma {:induction false} ToolFound(id: string, c: Content)
    ensures var pairs := AnthropicPairs(ToolMessage(id, c));
      && Found(pairs, PartsBy(User)) == [] && Found(pairs, PartsBy(Model)) == []
      && Found(pairs, CallsBy(User)) == [] && Found(pairs, CallsBy(Model)) == []
      && Found(pairs, ResultsBy(User)) == [(id, WholeText(c))] && Found(pairs, ResultsBy(Model)) == []
      && Found(pairs, AsItem()) == [Answered(User, id, WholeText(c))]
  {
    hide Found;
    ContentTexts(c);
    var block := ToolResult(id, FlattenText(c));
    FoundOne(User, block, AsItem());
    FoundOne(User, block, PartsBy(User));
    FoundOne(User, block, PartsBy(Model));
    FoundOne(User, block, CallsBy(User));
    FoundOne(User, block, CallsBy(Model));
    FoundOne(User, block, ResultsBy(User));
    FoundOne(User, block, ResultsBy(Model));
  }

  lemma GatherAppend<T>(ms: seq<Message>, m: Message, g: Message -> seq<T>)
    ensures Gather(ms + [m], g) == Gather(ms, g) + Gather([m], g)
  {
    assert (ms + [m])[..|ms|] == ms;
    GatherOne(m, g);
  }

  lemma AnthropicSaysAppend(ms: seq<Message>, m: Message, a: seq<(Role, Block)>, b: seq<(Role, Block)>)
    requires AnthropicSays(ms, a) && AnthropicSays([m], b)
    ensures AnthropicSays(ms + [m], a + b)
  {
    hide Found, Gather, PartsBy, CallsBy, ResultsBy, UserParts, AssistantParts, AssistantCalls, ToolReplies;
    hide AsItem, ItemsOf, Itself;
    FoundAppend(a, b, AsItem());
    GatherAppend(ms, m, ItemsOf(true, Itself()));
    FoundAppend(a, b, PartsBy(User));
    FoundAppend(a, b, PartsBy(Model));
    FoundAppend(a, b, CallsBy(User));
    FoundAppend(a, b, CallsBy(Model));
    FoundAppend(a, b, ResultsBy(User));
    FoundAppend(a, b, ResultsBy(Model));
    GatherAppend(ms, m, UserParts());
    GatherAppend(ms, m, AssistantParts());
    GatherAppend(ms, m, AssistantCalls());
    GatherAppend(ms, m, ToolReplies());
  }

  lemma NothingSaid()
    ensures AnthropicSays([], [])
  {
  }

  lemma {:induction false} AnthropicTurnsSay(ms: seq<Message>)
    ensures AnthropicSays(ms, AllAnthropicPairs(ms))
  {
    hide AnthropicSays, AnthropicPairs;
    if ms == [] {
      NothingSaid();
    } else {
      var before, m := ms[..|ms| - 1], ms[|ms| - 1];
      AnthropicTurnsSay(before);
      MessageSays(m);
      AnthropicSaysAppend(before, m, AllAnthropicPairs(before), AnthropicPairs(m));
      assert ms == before + [m];
    }
  }

  lemma MessageSays(m: Message)
    ensures AnthropicSays([m], AnthropicPairs(m))
  {
    GatherOne(m, UserParts());
    GatherOne(m, AssistantParts());
    GatherOne(m, AssistantCalls());
    GatherOne(m, ToolReplies());
    GatherOne(m, ItemsOf(true, Itself()));
    hide Found, Gather, AnthropicPairs;
    match m
    case SystemMessage(_) => SystemFound(m);
    case UserMessage(c) => UserFound(c);
    case AssistantMessage(c, calls) => AssistantFound(c, calls);
    case ToolMessage(id, c) => ToolFound(id, c);
  }

  lemma SystemFound(m: Message)
    requires m.SystemMessage?
    ensures forall f: (Role, Block) -> seq<Part> :: Found(AnthropicPairs(m), f) == []
    ensures forall f: (Role, Block) -> seq<ToolCall> :: Found(AnthropicPairs(m), f) == []
    ensures forall f: (Role, Block) -> seq<(string, string)> :: Found(AnthropicPairs(m), f) == []
    ensures forall f: (Role, Block) -> seq<Item> :: Found(AnthropicPairs(m), f) == []
  {
  }

  lemma GatherOne<T>(m: Message, g: Message -> seq<T>)
    ensures Gather([m], g) == g(m)
  {
    assert [m][..0] == [];
  }

  /**
   * The message loop of the Anthropic `translateRequest`: turns strictly alternate, none is empty,
   * and they hold exactly the pairs of the messages, in order.
   */
  method ToAnthropic(request: seq<Message>) returns (systemParts: seq<string>, messages: seq<Turn<Block>>)
    ensures Normal(messages) && Flat(messages) == AllAnthropicPairs(request)
    ensures AnthropicSays(request, Flat(messages))
    ensures systemParts == SystemTexts(request) == Gather(request, SystemSayings())
  {
    hide Flat, Normal, Push;
    NothingPushed<Block>();
    systemParts, messages := [], [];
    for i := 0 to |request|
      invariant Normal(messages) && Flat(messages) == AllAnthropicPairs(request[..i])
      invariant systemParts == SystemTexts(request[..i])
    {
      assert request[..i + 1][..i] == request[..i];
      match request[i]
      case SystemMessage(c) =>
        systemParts := systemParts + [FlattenText(c)];
      case UserMessage(c) =>
        PushKeepsNormal(messages, User, ContentToBlocks(c));
        messages := Push(messages, User, ContentToBlocks(c));
      case AssistantMessage(c, calls) =>
        PushKeepsNormal(messages, Model, AssistantBlocks(c, calls));
        messages := Push(messages, Model, AssistantBlocks(c, calls));
      case ToolMessage(id, c) =>
        var block := ToolResult(id, FlattenText(c));
        PushKeepsNormal(messages, User, [block]);
        assert Tagged(Turn(User, [block])) == [(User, block)];
        messages := Push(messages, User, [block]);
    }
    assert request[..|request|] == request;
    AnthropicTurnsSay(request);
    SystemTextsSaid(request);
  }

  // ----- the Gemini side -----

  datatype GeminiPart =
    | GText(text: string)
    | GImage(url: string)
    | FunctionCall(name: string, arguments: string)
    | FunctionResponse(name: string, content: string)

  /** The name given by the last call with this id. */
  function LastName(calls: seq<ToolCall>, id: string): Option<string> {
    if calls == [] then None
    else if calls[|calls| - 1].id == id then Some(calls[|calls| - 1].name)
    else LastName(calls[..|calls| - 1], id)
  }

  /** Call `k` has this id and name, and no later call has the id. */
  predicate LastWith(calls: seq<ToolCall>, id: string, name: string, k: int)
    requires 0 <= k < |calls|
  {
    calls[k].id == id && calls[k].name == name && forall j :: k < j < |calls| ==> calls[j].id != id
  }

  lemma {:induction false} LastNameMeaning(calls: seq<ToolCall>, id: string, name: string)
    ensures LastName(calls, id) == Some(name) <==> exists k :: 0 <= k < |calls| && LastWith(calls, id, name, k)
    ensures LastName(calls, id) == None <==> forall k :: 0 <= k < |calls| ==> calls[k].id != id
  {
    if calls != [] {
      hide LastWith;
      var n := |calls| - 1;
      LastNameMeaning(calls[..n], id, name);
      LastWithNow(calls, id, name);
      forall k: nat | k < n
        ensures LastWith(calls, id, name, k) <==> LastWith(calls[..n], id, name, k) && calls[n].id != id
      {
        LastWithBefore(calls, id, name, k);
      }
    }
  }

  lemma LastWithNow(calls: seq<ToolCall>, id: string, name: string)
    requires calls != []
    ensures LastWith(calls, id, name, |calls| - 1) <==> calls[|calls| - 1].id == id && calls[|calls| - 1].name == name
  {
  }

  lemma LastWithBefore(calls: seq<ToolCall>, id: string, name: string, k: nat)
    requires k < |calls| - 1
    ensures var n := |calls| - 1;
      LastWith(calls, id, name, k) <==> LastWith(calls[..n], id, name, k) && calls[n].id != id
  {
    var n := |calls| - 1;
    assert forall j :: 0 <= j < n ==> calls[..n][j] == calls[j];
  }

  /** A tool message's function name: that of the last assistant call with its id, else the id itself. */
  function ResponseName(ms: seq<Message>, callId: string): string {
    LastName(AllCalls(ms), callId).GetOr(callId)
  }

  function PartToGemini(p: Part): GeminiPart {
    if p.TextPart? then GText(p.text) else GImage(p.url)
  }

  function ContentToParts(c: Content): seq<GeminiPart> {
    match c
    case Missing => []
    case Text(s) => if s == "" then [] else [GText(s)]
    case Parts(ps) => seq(|ps|, k requires 0 <= k < |ps| => PartToGemini(ps[k]))
  }

  function ModelParts(c: Content, calls: seq<ToolCall>): seq<GeminiPart> {
    var texts := TextOnly(c);
    seq(|texts|, k requires 0 <= k < |texts| => GText(texts[k]))
    + seq(|calls|, k requires 0 <= k < |calls| => FunctionCall(calls[k].name, calls[k].arguments))
  }

  /** The (role, part) pairs one message of the request `all` stands for. */
  function GeminiPairs(all: seq<Message>, m: Message): seq<(Role, GeminiPart)> {
    match m
    case SystemMessage(_) => []
    case UserMessage(c) => Tagged(Turn(User, ContentToParts(c)))
    case AssistantMessage(c, calls) => Tagged(Turn(Model, ModelParts(c, calls)))
    case ToolMessage(id, c) => [(User, FunctionResponse(ResponseName(all, id), FlattenText(c)))]
  }

  function AllGeminiPairs(all: seq<Message>, ms: seq<Message>): seq<(Role, GeminiPart)> {
    if ms == [] then [] else AllGeminiPairs(all, ms[..|ms| - 1]) + GeminiPairs(all, ms[|ms| - 1])
  }

  // ----- what the Gemini contents say -----

  /** The text and images of a role's contents. */
  function GeminiPartsBy(role: Role): (Role, GeminiPart) -> seq<Part> {
    (r: Role, p: GeminiPart) =>
      if r == role && p.GText? then [TextPart(p.text)]
      else if r == role && p.GImage? then [ImagePart(p.url)]
      else []
  }

  /** What a part is, and on whose side. */
  function AsGeminiItem(): (Role, GeminiPart) -> seq<Item> {
    (r: Role, p: GeminiPart) =>
      match p
      case GText(text) => [Said(r, TextPart(text))]
      case GImage(url) => [Said(r, ImagePart(url))]
      case FunctionCall(name, arguments) => [Called(r, None, name, arguments)]
      case FunctionResponse(name, text) => [Answered(r, name, text)]
  }

  /** The name of the last call with the id, else the id itself. */
  function NameOr(all: seq<Message>): string -> string {
    (id: string) => LastName(AllCalls(all), id).GetOr(id)
  }

  /**
   * The user contents hold the user messages' text and images and, under the names of their calls,
   * the tool messages' answers; the model contents the assistant messages' text and calls; and all
   * of it in the request's order.
   */
  ghost predicate GeminiSays(all: seq<Message>, ms: seq<Message>, pairs: seq<(Role, GeminiPart)>) {
    && Found(pairs, GeminiPartsBy(User)) == Gather(ms, UserParts())
    && Found(pairs, GeminiPartsBy(Model)) == Gather(ms, AssistantParts())
    && Found(pairs, AsGeminiItem()) == Gather(ms, ItemsOf(false, NameOr(all)))
  }

  lemma {:induction false} GeminiUserFound(all: seq<Message>, c: Content)
    ensures var pairs := GeminiPairs(all, UserMessage(c));
      && Found(pairs, GeminiPartsBy(User)) == PartsOf(c) && Found(pairs, GeminiPartsBy(Model)) == []
      && Found(pairs, AsGeminiItem()) == SaidBy(User, PartsOf(c))
  {
    hide Found;
    var parts := ContentToParts(c);
    FoundEach(User, parts, AsGeminiItem(), SaidBy(User, PartsOf(c)));
    FoundEach(User, parts, GeminiPartsBy(User), PartsOf(c));
    FoundNone(User, parts, GeminiPartsBy(Model));
  }

  lemma {:induction false} GeminiAssistantFound(all: seq<Message>, c: Content, calls: seq<ToolCall>)
    ensures var pairs := GeminiPairs(all, AssistantMessage(c, calls));
      && Found(pairs, GeminiPartsBy(User)) == []
      && Found(pairs, GeminiPartsBy(Model)) == AsTexts(TextsIn(PartsOf(c)))
      && Found(pairs, AsGeminiItem()) == SaidBy(Model, AsTexts(TextsIn(PartsOf(c)))) + CallsMade(calls, false)
  {
    hide Found, TextOnly, TextsIn;
    ContentTexts(c);
    var texts := TextOnly(c);
    var said := seq(|texts|, k requires 0 <= k < |texts| => GText(texts[k]));
    var made := seq(|calls|, k requires 0 <= k < |calls| => FunctionCall(calls[k].name, calls[k].arguments));
    assert ModelParts(c, calls) == said + made;
    TaggedConcat(Model, said, made);
    FoundAppend(Tagged(Turn(Model, said)), Tagged(Turn(Model, made)), GeminiPartsBy(Model));
    FoundEach(Model, said, GeminiPartsBy(Model), AsTexts(texts));
    FoundNone(Model, made, GeminiPartsBy(Model));
    FoundEach(Model, said + made, AsGeminiItem(), SaidBy(Model, AsTexts(texts)) + CallsMade(calls, false));
    FoundNone(Model, said + made, GeminiPartsBy(User));
  }

  lemma {:induction false} GeminiToolFound(all: seq<Message>, id: string, c: Content)
    ensures var pairs := GeminiPairs(all, ToolMessage(id, c));
      && Found(pairs, GeminiPartsBy(User)) == [] && Found(pairs, GeminiPartsBy(Model)) == []
      && Found(pairs, AsGeminiItem()) == [Answered(User, NameOr(all)(id), WholeText(c))]
  {
    hide Found, LastName;
    ContentTexts(c);
    var part := FunctionResponse(ResponseName(all, id), FlattenText(c));
    FoundOne(User, part, AsGeminiItem());
    FoundOne(User, part, GeminiPartsBy(User));
    FoundOne(User, part, GeminiPartsBy(Model));
  }

  lemma GeminiSystemFound(all: seq<Message>, m: Message)
    requires m.SystemMessage?
    ensures forall f: (Role, GeminiPart) -> seq<Part> :: Found(GeminiPairs(all, m), f) == []
    ensures forall f: (Role, GeminiPart) -> seq<Item> :: Found(GeminiPairs(all, m), f) == []
  {
  }

  lemma GeminiMessageSays(all: seq<Message>, m: Message)
    ensures GeminiSays(all, [m], GeminiPairs(all, m))
  {
    GatherOne(m, UserParts());
    GatherOne(m, AssistantParts());
    GatherOne(m, ItemsOf(false, NameOr(all)));
    hide Found, Gather, GeminiPairs, NameOr;
    match m
    case SystemMessage(_) => GeminiSystemFound(all, m);
    case UserMessage(c) => GeminiUserFound(all, c);
    case AssistantMessage(c, calls) => GeminiAssistantFound(all, c, calls);
    case ToolMessage(id, c) => GeminiToolFound(all, id, c);
  }

  lemma GeminiSaysAppend(
      all: seq<Message>, ms: seq<Message>, m: Message, a: seq<(Role, GeminiPart)>, b: seq<(Role, GeminiPart)>)
    requires GeminiSays(all, ms, a) && GeminiSays(all, [m], b)
    ensures GeminiSays(all, ms + [m], a + b)
  {
    hide Found, Gather, GeminiPartsBy, UserParts, AssistantParts, AsGeminiItem, ItemsOf, NameOr;
    FoundAppend(a, b, AsGeminiItem());
    FoundAppend(a, b, GeminiPartsBy(User));
    FoundAppend(a, b, GeminiPartsBy(Model));
    GatherAppend(ms, m, ItemsOf(false, NameOr(all)));
    GatherAppend(ms, m, UserParts());
    GatherAppend(ms, m, AssistantParts());
  }

  lemma NothingToGemini(all: seq<Message>)
    ensures GeminiSays(all, [], [])
  {
  }

  lemma {:induction false} GeminiContentsSay(all: seq<Message>, ms: seq<Message>)
    ensures GeminiSays(all, ms, AllGeminiPairs(all, ms))
  {
    hide GeminiSays, GeminiPairs;
    if ms == [] {
      NothingToGemini(all);
    } else {
      var before, m := ms[..|ms| - 1], ms[|ms| - 1];
      GeminiContentsSay(all, before);
      GeminiMessageSays(all, m);
      GeminiSaysAppend(all, before, m, AllGeminiPairs(all, before), GeminiPairs(all, m));
      assert ms == before + [m];
    }
  }

  ghost predicate Names(m: map<string, string>, calls: seq<ToolCall>) {
    forall id :: LastName(calls, id) == if id in m then Some(m[id]) else None
  }

  lemma {:induction false} NamesExtend(m: map<string, string>, calls: seq<ToolCall>, c: ToolCall)
    requires Names(m, calls)
    ensures Names(m[c.id := c.name], calls + [c])
  {
    assert (calls + [c])[..|calls|] == calls;
  }

  /** The first pass: a later call with the same id overwrites an earlier one. */
  method ToolNames(request: seq<Message>) returns (toolNameById: map<string, string>)
    ensures Names(toolNameById, AllCalls(request))
  {
    hide Names, LastName;
    toolNameById := map[];
    NoNames();
    for i := 0 to |request|
      invariant Names(toolNameById, AllCalls(request[..i]))
    {
      assert request[..i + 1][..i] == request[..i];
      if request[i].AssistantMessage? {
        var calls := request[i].calls;
        ghost var before := AllCalls(request[..i]);
        assert before + calls[..0] == before;
        for j := 0 to |calls|
          invariant Names(toolNameById, before + calls[..j])
        {
          NamesExtend(toolNameById, before + calls[..j], calls[j]);
          assert before + calls[..j + 1] == before + calls[..j] + [calls[j]];
          toolNameById := toolNameById[calls[j].id := calls[j].name];
        }
        assert calls[..|calls|] == calls;
      } else {
        assert AllCalls(request[..i + 1]) == AllCalls(request[..i]);
      }
    }
    assert request[..|request|] == request;
  }

  lemma NoNames()
    ensures Names(map[], [])
  {
  }

  /** The Gemini `translateRequest`: the same normal form, with every function response named. */
  method ToGemini(request: seq<Message>) returns (systemParts: seq<string>, contents: seq<Turn<GeminiPart>>)
    ensures Normal(contents) && Flat(contents) == AllGeminiPairs(request, request)
    ensures GeminiSays(request, request, Flat(contents))
    ensures systemParts == SystemTexts(request) == Gather(request, SystemSayings())
  {
    hide Flat, Normal, Push, GeminiSays, Gather, ContentToParts, ModelParts, LastName, AllCalls;
    NothingPushed<GeminiPart>();
    var toolNameById := ToolNames(request);
    systemParts, contents := [], [];
    for i := 0 to |request|
      invariant Normal(contents) && Flat(contents) == AllGeminiPairs(request, request[..i])
      invariant systemParts == SystemTexts(request[..i])
    {
      assert request[..i + 1][..i] == request[..i];
      match request[i]
      case SystemMessage(c) =>
        systemParts := systemParts + [FlattenText(c)];
      case UserMessage(c) =>
        PushKeepsNormal(contents, User, ContentToParts(c));
        contents := Push(contents, User, ContentToParts(c));
      case AssistantMessage(c, calls) =>
        PushKeepsNormal(contents, Model, ModelParts(c, calls));
        contents := Push(contents, Model, ModelParts(c, calls));
      case ToolMessage(id, c) =>
        var part := FunctionResponse(if id in toolNameById then toolNameById[id] else id, FlattenText(c));
        PushKeepsNormal(contents, User, [part]);
        assert Tagged(Turn(User, [part])) == [(User, part)];
        contents := Push(contents, User, [part]);
    }
    assert request[..|request|] == request;
    GeminiContentsSay(request, request);
    SystemTextsSaid(request);
  }

  /** Hence the turns sent upstream are the only alternating, gap-free grouping of the request's pairs. */
  lemma OnlyGrouping(request: seq<Message>, messages: seq<Turn<Block>>, other: seq<Turn<Block>>)
    requires Normal(messages) && Flat(messages) == AllAnthropicPairs(request)
    requires Normal(other) && Flat(other) == AllAnthropicPairs(request)
    ensures messages == other
  {
    NormalFormIsUnique(messages, other);
  }
}
