/** Exactly which streams bring a client the text of the non-streaming response. */
module AnthropicText {
  import opened AnthropicStream

  predicate IsText(e: Event) {
    e.BlockDelta? && e.delta.TextDelta?
  }

  function WithText(e: Event, text: string): Event {
    if IsText(e) then BlockDelta(e.index, TextDelta(text)) else e
  }

  /** The same stream with other texts in its text deltas. */
  function Retexted(events: seq<Event>, texts: nat -> string): (r: seq<Event>)
    ensures |r| == |events|
    ensures forall k :: 0 <= k < |events| ==> r[k] == WithText(events[k], texts(k))
  {
    seq(|events|, k requires 0 <= k < |events| => WithText(events[k], texts(k)))
  }

  /** A text delta at `q` is for an earlier block than one at `p` before it. */
  predicate InterleavesAt(events: seq<Event>, p: nat, q: nat) {
    && p < q < |events| && IsText(events[p]) && IsText(events[q])
    && events[q].index.GetOr(0) < events[p].index.GetOr(0)
  }

  predicate HeadsEmpty(events: seq<Event>) {
    forall k :: 0 <= k < |events| && events[k].BlockStart? && events[k].head.TextHead? ==> events[k].head.text == ""
  }

  /** Text blocks start empty, and their deltas come in block order. */
  ghost predicate BlockByBlock(events: seq<Event>) {
    HeadsEmpty(events) && forall p: nat, q: nat :: !InterleavesAt(events, p, q)
  }

  /** All text of the stream in order of arrival. */
  function Arrived(events: seq<Event>): string {
    if events == [] then ""
    else
      var e := events[|events| - 1];
      Arrived(events[..|events| - 1]) + if IsText(e) then e.delta.text else ""
  }

  function HeadLength(events: seq<Event>): nat {
    if events == [] then 0
    else
      var e := events[|events| - 1];
      HeadLength(events[..|events| - 1]) + if e.BlockStart? && e.head.TextHead? then |e.head.text| else 0
  }

  lemma TextOfOneEvent(v: Vars, r: Received, e: Event)
    ensures |Emitted(v, e)| <= 1
    ensures (if Emitted(v, e) == [] then r else Feed(r, Emitted(v, e)[0])).text == r.text + if IsText(e) then e.delta.text else ""
  {
    assert r.text + "" == r.text;
  }

  lemma {:induction false} ArrivedIsCollected(events: seq<Event>)
    ensures Collect(Normalised(events).1).text == Arrived(events)
  {
    if events != [] {
      hide Emitted, VarsAfter, Feed;
      var before, e := events[..|events| - 1], events[|events| - 1];
      var v, chunks := Normalised(before).0, Normalised(before).1;
      ArrivedIsCollected(before);
      TextOfOneEvent(v, Collect(chunks), e);
      if Emitted(v, e) == [] {
        assert chunks + [] == chunks;
      } else {
        assert Emitted(v, e) == [Emitted(v, e)[0]];
        CollectAppend(chunks, Emitted(v, e)[0]);
      }
    }
  }

  lemma {:induction false} TextLengths(events: seq<Event>)
    requires Assemble(events).Some?
    ensures |AllText(Assemble(events).value.blocks)| == |Arrived(events)| + HeadLength(events)
  {
    if events != [] {
      hide AllText, ToolsOf;
      var before, e := events[..|events| - 1], events[|events| - 1];
      var blocks := Assemble(before).value.blocks;
      TextLengths(before);
      match e
      case BlockStart(_, head) => Appended(blocks, Opened(head));
      case BlockDelta(index, TextDelta(text)) => TextGrows(blocks, index.GetOr(0), text);
      case BlockDelta(index, JsonDelta(json)) => JsonGrows(blocks, index.GetOr(0), json);
      case _ =>
    } else {
      assert AllText([]) == "";
    }
  }

  lemma {:induction false} HeadLengthMeaning(events: seq<Event>)
    ensures HeadLength(events) == 0 <==> HeadsEmpty(events)
  {
    if events != [] {
      HeadLengthMeaning(events[..|events| - 1]);
      assert forall k :: 0 <= k < |events| - 1 ==> events[..|events| - 1][k] == events[k];
    }
  }

  /** Other texts change the text of text blocks and nothing else that matters to what may follow. */
  ghost predicate SameKinds(blocks: seq<Block>, blocks': seq<Block>) {
    && |blocks| == |blocks'|
    && forall k :: 0 <= k < |blocks| ==>
      blocks[k].TextBlock? == blocks'[k].TextBlock? && blocks[k].ToolBlock? == blocks'[k].ToolBlock?
  }

  lemma RetextedStep(a: Assembly, a': Assembly, e: Event, text: string)
    requires MayFollow(a, e) && SameKinds(a.blocks, a'.blocks)
    ensures MayFollow(a', WithText(e, text))
    ensures SameKinds(Extend(a, e).blocks, Extend(a', WithText(e, text)).blocks)
  {
  }

  lemma {:induction false} RetextedFits(events: seq<Event>, texts: nat -> string)
    requires Assemble(events).Some?
    ensures Assemble(Retexted(events, texts)).Some?
    ensures SameKinds(Assemble(events).value.blocks, Assemble(Retexted(events, texts)).value.blocks)
    ensures HeadLength(Retexted(events, texts)) == HeadLength(events)
  {
    if events != [] {
      hide SameKinds, MayFollow, Extend;
      var n := |events| - 1;
      RetextedFits(events[..n], texts);
      RetextedFront(events, texts);
      RetextedStep(Assemble(events[..n]).value, Assemble(Retexted(events[..n], texts)).value, events[n], texts(n));
    } else {
      assert Retexted(events, texts) == [];
    }
  }

  lemma RetextedFront(events: seq<Event>, texts: nat -> string)
    requires events != []
    ensures Retexted(events, texts)[..|events| - 1] == Retexted(events[..|events| - 1], texts)
  {
  }

  /** Block `j` has got text by the time `events` are over. */
  ghost predicate TextReached(events: seq<Event>, j: int) {
    exists p :: 0 <= p < |events| && IsText(events[p]) && events[p].index.GetOr(0) == j
  }

  lemma {:induction false} OnlyReachedHasText(events: seq<Event>, j: nat)
    requires Assemble(events).Some? && HeadsEmpty(events) && j < |Assemble(events).value.blocks|
    ensures var b := Assemble(events).value.blocks[j]; b.TextBlock? && b.text != "" ==> TextReached(events, j)
  {
    var before, e := events[..|events| - 1], events[|events| - 1];
    assert forall k :: 0 <= k < |before| ==> before[k] == events[k];
    if j < |Assemble(before).value.blocks| {
      OnlyReachedHasText(before, j);
      if TextReached(before, j) {
        var p :| 0 <= p < |before| && IsText(before[p]) && before[p].index.GetOr(0) == j;
        assert IsText(events[p]);
      }
    }
  }

  /** Texts that come block by block are in order whatever they are. */
  lemma {:induction false} BlockByBlockInOrder(events: seq<Event>)
    requires Assemble(events).Some? && BlockByBlock(events)
    ensures TextInOrder(events)
  {
    if events != [] {
      hide TextInOrder;
      var n := |events| - 1;
      var before, e := events[..n], events[n];
      assert forall k :: 0 <= k < n ==> before[k] == events[k];
      assert forall p: nat, q: nat :: InterleavesAt(before, p, q) ==> InterleavesAt(events, p, q);
      BlockByBlockInOrder(before);
      var a := Assemble(before).value;
      if IsText(e) {
        forall j | 0 <= j < |a.blocks| && e.index.GetOr(0) < j && a.blocks[j].TextBlock?
          ensures a.blocks[j].text == ""
        {
          OnlyReachedHasText(before, j);
          if TextReached(before, j) {
            var p := ReachedInterleaves(events, j);
          }
        }
      }
      InOrderStep(before, e, events);
    }
  }

  lemma ReachedInterleaves(events: seq<Event>, j: int) returns (p: nat)
    requires events != [] && IsText(events[|events| - 1]) && events[|events| - 1].index.GetOr(0) < j
    requires TextReached(events[..|events| - 1], j)
    ensures InterleavesAt(events, p, |events| - 1)
  {
    var before := events[..|events| - 1];
    p :| p < |before| && IsText(before[p]) && before[p].index.GetOr(0) == j;
  }

  lemma InOrderStep(before: seq<Event>, e: Event, events: seq<Event>)
    requires events == before + [e] && Assemble(events).Some? && Assemble(before).Some?
    requires TextInOrder(before) && TextFits(Assemble(before).value, e)
    ensures TextInOrder(events)
  {
    assert events[..|events| - 1] == before;
  }

  lemma RetextedBlockByBlock(events: seq<Event>, texts: nat -> string)
    requires BlockByBlock(events)
    ensures BlockByBlock(Retexted(events, texts))
  {
    var other := Retexted(events, texts);
    assert forall p: nat, q: nat :: InterleavesAt(other, p, q) ==> InterleavesAt(events, p, q);
  }

  /** "b" at `p`, "a" at `q`, and no other text. */
  function TwoTexts(p: nat, q: nat): nat -> string {
    k => if k == p then "b" else if k == q then "a" else ""
  }

  function PinnedText(n: nat, p: nat, q: nat, i: int, j: int, k: int): string {
    if q < n && k == j then "a" else if p < n && k == i then "b" else ""
  }

  /** Every text block holds just the pinned text. */
  ghost predicate Pinned(blocks: seq<Block>, n: nat, p: nat, q: nat, i: int, j: int) {
    forall k :: 0 <= k < |blocks| && blocks[k].TextBlock? ==> blocks[k].text == PinnedText(n, p, q, i, j, k)
  }

  lemma PinnedStep(a: Assembly, e: Event, n: nat, p: nat, q: nat, i: int, j: int)
    requires MayFollow(a, e) && Pinned(a.blocks, n, p, q, i, j) && p < q && j < i
    requires e.BlockStart? && e.head.TextHead? ==> e.head.text == ""
    requires IsText(e) ==> e.delta.text == TwoTexts(p, q)(n)
    requires n == p ==> IsText(e) && e.index.GetOr(0) == i
    requires n == q ==> IsText(e) && e.index.GetOr(0) == j
    requires e.BlockStart? ==> (p < n ==> i < |a.blocks|) && (q < n ==> j < |a.blocks|)
    ensures Pinned(Extend(a, e).blocks, n + 1, p, q, i, j)
  {
  }

  lemma ArrivedStep(events: seq<Event>)
    requires events != []
    ensures var e := events[|events| - 1];
      Arrived(events) == Arrived(events[..|events| - 1]) + if IsText(e) then e.delta.text else ""
  {
  }

  /** The text of the delta at `n`. */
  function TextAt(n: nat, p: nat, q: nat): string {
    if n == p then "b" else if n == q then "a" else ""
  }

  /** All text of the first `n` events. */
  function TextUpTo(n: nat, p: nat, q: nat): string {
    if q < n then "ba" else if p < n then "b" else ""
  }

  lemma TextUpToStep(n: nat, p: nat, q: nat)
    requires p < q
    ensures TextUpTo(n, p, q) + TextAt(n, p, q) == TextUpTo(n + 1, p, q)
  {
    assert "" + "b" == "b" && "b" + "a" == "ba" && "" + "" == "" && "b" + "" == "b" && "ba" + "" == "ba";
  }

  /** The last text of such a stream. */
  lemma LastOfTwoTexts(e: Event, n: nat, p: nat, q: nat)
    requires p < q && (n == p || n == q ==> IsText(e))
    ensures var e' := WithText(e, TwoTexts(p, q)(n)); (if IsText(e') then e'.delta.text else "") == TextAt(n, p, q)
  {
  }

  lemma OneMoreText(events: seq<Event>, p: nat, q: nat)
    requires events != [] && p < q && (|events| - 1 == p || |events| - 1 == q ==> IsText(events[|events| - 1]))
    ensures Arrived(Retexted(events, TwoTexts(p, q))) ==
      Arrived(Retexted(events[..|events| - 1], TwoTexts(p, q))) + TextAt(|events| - 1, p, q)
  {
    hide Arrived, TwoTexts;
    LastOfTwoTexts(events[|events| - 1], |events| - 1, p, q);
    RetextedFront(events, TwoTexts(p, q));
    ArrivedStep(Retexted(events, TwoTexts(p, q)));
  }

  lemma {:induction false} TwoTextsArrive(events: seq<Event>, p: nat, q: nat)
    requires p < q && (p < |events| ==> IsText(events[p])) && (q < |events| ==> IsText(events[q]))
    ensures Arrived(Retexted(events, TwoTexts(p, q))) == TextUpTo(|events|, p, q)
  {
    if events == [] {
      assert Retexted(events, TwoTexts(p, q)) == [];
    } else {
      hide *;
      OneMoreText(events, p, q);
      TextUpToStep(|events| - 1, p, q);
      TwoTextsArrive(events[..|events| - 1], p, q);
    }
  }

  lemma AssembleStep(before: seq<Event>, e: Event, events: seq<Event>)
    requires events != [] && events[..|events| - 1] == before && events[|events| - 1] == e && Assemble(events).Some?
    ensures Assemble(before).Some? && MayFollow(Assemble(before).value, e)
    ensures Assemble(events).value == Extend(Assemble(before).value, e)
  {
    hide MayFollow, Extend;
  }

  /** What the two texts have come to after the first events. */
  lemma {:induction false} TwoTextsSoFar(events: seq<Event>, p: nat, q: nat, i: int, j: int)
    requires Assemble(events).Some? && HeadsEmpty(events) && p < q && j < i
    requires p < |events| ==> IsText(events[p]) && events[p].index.GetOr(0) == i
    requires q < |events| ==> IsText(events[q]) && events[q].index.GetOr(0) == j
    ensures var other := Retexted(events, TwoTexts(p, q));
      Assemble(other).Some? && Pinned(Assemble(other).value.blocks, |events|, p, q, i, j)
  {
    var texts := TwoTexts(p, q);
    RetextedFits(events, texts);
    if events == [] {
      assert Retexted(events, texts) == [];
    } else {
      hide Pinned, MayFollow, Extend, SameKinds, Retexted, Assemble, HeadLength, HeadsEmpty, TwoTexts;
      var n := |events| - 1;
      FrontAssembles(events);
      FrontHeadsEmpty(events);
      TwoTextsSoFar(events[..n], p, q, i, j);
      RetextedFront(events, texts);
      PinnedNext(events, Retexted(events, texts), p, q, i, j);
    }
  }

  lemma PinnedNext(events: seq<Event>, other: seq<Event>, p: nat, q: nat, i: int, j: int)
    requires events != [] && other == Retexted(events, TwoTexts(p, q)) && p < q && j < i
    requires Assemble(other).Some? && Assemble(other[..|events| - 1]).Some?
    requires Pinned(Assemble(other[..|events| - 1]).value.blocks, |events| - 1, p, q, i, j)
    requires p < |events| ==> IsText(events[p]) && events[p].index.GetOr(0) == i
    requires q < |events| ==> IsText(events[q]) && events[q].index.GetOr(0) == j
    requires var e := events[|events| - 1]; e.BlockStart? && e.head.TextHead? ==> e.head.text == ""
    ensures Pinned(Assemble(other).value.blocks, |events|, p, q, i, j)
  {
    hide Pinned, MayFollow, Extend, Retexted, Assemble;
    var n := |events| - 1;
    AssembleStep(other[..n], other[n], other);
    if p < n {
      ReachedIsText(other[..n], p);
    }
    if q < n {
      ReachedIsText(other[..n], q);
    }
    PinnedStep(Assemble(other[..n]).value, other[n], n, p, q, i, j);
  }

  lemma FrontHeadsEmpty(events: seq<Event>)
    requires events != [] && HeadsEmpty(events)
    ensures HeadsEmpty(events[..|events| - 1])
    ensures var e := events[|events| - 1]; e.BlockStart? && e.head.TextHead? ==> e.head.text == ""
  {
  }

  lemma FrontAssembles(events: seq<Event>)
    requires events != [] && Assemble(events).Some?
    ensures Assemble(events[..|events| - 1]).Some?
  {
  }

  lemma {:induction false} AllTextNone(blocks: seq<Block>)
    requires forall k :: 0 <= k < |blocks| && blocks[k].TextBlock? ==> blocks[k].text == ""
    ensures AllText(blocks) == ""
  {
    if blocks != [] {
      AllTextNone(blocks[..|blocks| - 1]);
    }
  }

  lemma {:induction false} AllTextOne(blocks: seq<Block>, j: nat, text: string)
    requires j < |blocks| && blocks[j] == TextBlock(text)
    requires forall k :: 0 <= k < |blocks| && k != j && blocks[k].TextBlock? ==> blocks[k].text == ""
    ensures AllText(blocks) == text
  {
    var n := |blocks| - 1;
    if j == n {
      AllTextNone(blocks[..n]);
    } else {
      AllTextOne(blocks[..n], j, text);
    }
  }

  lemma {:induction false} AllTextTwo(blocks: seq<Block>, j: nat, i: nat)
    requires j < i < |blocks| && blocks[j] == TextBlock("a") && blocks[i] == TextBlock("b")
    requires forall k :: 0 <= k < |blocks| && k != j && k != i && blocks[k].TextBlock? ==> blocks[k].text == ""
    ensures AllText(blocks) == "ab"
  {
    var n := |blocks| - 1;
    if i == n {
      AllTextOne(blocks[..n], j, "a");
    } else {
      AllTextTwo(blocks[..n], j, i);
    }
  }

  /** A text delta for block `i` needs that block to be there, and blocks stay. */
  lemma {:induction false} ReachedIsText(events: seq<Event>, p: nat)
    requires Assemble(events).Some? && p < |events| && IsText(events[p])
    ensures var i := events[p].index.GetOr(0);
      0 <= i < |Assemble(events).value.blocks| && Assemble(events).value.blocks[i].TextBlock?
  {
    var n := |events| - 1;
    if p < n {
      ReachedIsText(events[..n], p);
    }
  }

  /** Whatever stream has a text delta for an earlier block after one for a later block: with these texts the paths differ. */
  lemma {:induction false} InterleavedTextDiffers(events: seq<Event>, p: nat, q: nat)
    requires Assemble(events).Some? && HeadsEmpty(events) && InterleavesAt(events, p, q)
    ensures var other := Retexted(events, TwoTexts(p, q));
      && Assemble(other).Some?
      && Collect(Normalised(other).1).text == "ba" && AllText(Assemble(other).value.blocks) == "ab"
  {
    hide Assemble, Normalised, Collect, AllText, Arrived;
    var texts, i, j := TwoTexts(p, q), events[p].index.GetOr(0), events[q].index.GetOr(0);
    var other := Retexted(events, texts);
    TwoTextsSoFar(events, p, q, i, j);
    TwoTextsArrive(events, p, q);
    ArrivedIsCollected(other);
    ReachedIsText(other, p);
    ReachedIsText(other, q);
    AllTextTwo(Assemble(other).value.blocks, j, i);
  }

  /** Both paths give the same text. */
  ghost predicate SameText<J>(body: seq<Event>, parse: string -> J, stringify: J -> string, empty: J)
    requires Assemble(body).Some?
  {
    Got(body, false).text == Answer(body, parse, stringify, empty).content.GetOr("")
  }

  lemma SameTextMeaning<J>(body: seq<Event>, parse: string -> J, stringify: J -> string, empty: J)
    requires Assemble(body).Some?
    ensures SameText(body, parse, stringify, empty) <==>
      Collect(Normalised(body).1).text == AllText(Assemble(body).value.blocks)
  {
    hide Normalised, Collect, Text, Calls, AllText, AsResponse, Closing;
    ResponseParts(Assemble(body).value.blocks, parse, stringify, empty);
    ClosingCollected(Normalised(body).0, Normalised(body).1, false);
  }

  /** A text block that does not start empty: its first text is in the response and never in the stream. */
  lemma {:induction false} NonEmptyHeadDiffers(body: seq<Event>)
    requires Assemble(body).Some? && !HeadsEmpty(body)
    ensures Collect(Normalised(body).1).text != AllText(Assemble(body).value.blocks)
  {
    ArrivedIsCollected(body);
    TextLengths(body);
    HeadLengthMeaning(body);
  }

  /**
   * The two paths give the same text, whatever texts a stream carries, exactly if its text blocks
   * start empty and their deltas come in block order.
   */
  lemma {:induction false} TextAgreesExactly<J>(body: seq<Event>, parse: string -> J, stringify: J -> string, empty: J)
    requires Assemble(body).Some?
    ensures (forall texts :: Assemble(Retexted(body, texts)).Some? && SameText(Retexted(body, texts), parse, stringify, empty))
      <==> BlockByBlock(body)
  {
    hide Assemble, Normalised, Collect, AllText, SameText, HeadsEmpty;
    if BlockByBlock(body) {
      forall texts
        ensures Assemble(Retexted(body, texts)).Some? && SameText(Retexted(body, texts), parse, stringify, empty)
      {
        var other := Retexted(body, texts);
        RetextedFits(body, texts);
        RetextedBlockByBlock(body, texts);
        BlockByBlockInOrder(other);
        StreamFollowsMessage(other);
        SameTextMeaning(other, parse, stringify, empty);
      }
    } else if !HeadsEmpty(body) {
      var texts := TwoTexts(0, 0);
      var other := Retexted(body, texts);
      RetextedFits(body, texts);
      HeadLengthMeaning(body);
      HeadLengthMeaning(other);
      NonEmptyHeadDiffers(other);
      SameTextMeaning(other, parse, stringify, empty);
      assert !SameText(Retexted(body, texts), parse, stringify, empty);
    } else {
      var p: nat, q: nat :| InterleavesAt(body, p, q);
      InterleavedTextDiffers(body, p, q);
      SameTextMeaning(Retexted(body, TwoTexts(p, q)), parse, stringify, empty);
      assert !SameText(Retexted(body, TwoTexts(p, q)), parse, stringify, empty);
    }
  }
}
