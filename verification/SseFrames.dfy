/** What `serializeSSE` sends, a client that parses the stream gets back. */
module SseFrames {
  import opened CanonicalJson
  import opened JsonPrinting
  import opened SseStream

  function Printed(values: seq<Json>): seq<string> {
    if values == [] then [] else [Print(values[0])] + Printed(values[1..])
  }

  ghost predicate AllValid(values: seq<Json>) {
    values == [] || (Valid(values[0]) && AllValid(values[1..]))
  }

  lemma {:induction false} PrintedIsClean(values: seq<Json>)
    requires AllValid(values)
    ensures AllClean(Printed(values))
    decreases |values|
  {
    hide Print, Valid;
    if values != [] {
      PrintIsPlain(values[0]);
      PrintedIsClean(values[1..]);
      assert Printed(values)[1..] == Printed(values[1..]);
    }
  }

  /**
   * Any values serialised as frames, ended by the "[DONE]" frame and cut into reads anywhere, are
   * parsed back as exactly their JSON texts, which read as the values, followed by "[DONE]".
   */
  lemma {:induction false} StreamRoundTrip(values: seq<Json>, chunks: seq<string>)
    requires AllValid(values)
    requires Concat(chunks) == Frames(Printed(values) + ["[DONE]"])
    ensures Parse(Concat(chunks)) == AsEvents(Printed(values) + ["[DONE]"])
    ensures |Printed(values)| == |values|
    ensures forall k :: 0 <= k < |values| ==> ReadValue(Printed(values)[k]) == Got(values[k], "")
  {
    hide Printed, Parse, Frames;
    PrintedIsClean(values);
    DoneIsClean();
    CleanAppend(Printed(values), "[DONE]");
    FramesRoundTrip(Printed(values) + ["[DONE]"]);
    PrintedReadsBack(values);
  }

  lemma {:induction false} PrintedReadsBack(values: seq<Json>)
    requires AllValid(values)
    ensures |Printed(values)| == |values|
    ensures forall k :: 0 <= k < |values| ==> ReadValue(Printed(values)[k]) == Got(values[k], "")
    decreases |values|
  {
    hide Print, Valid, ReadValue;
    if values != [] {
      ReadsBack(values[0], "");
      assert Print(values[0]) + "" == Print(values[0]);
      PrintedReadsBack(values[1..]);
    }
  }

  lemma DoneIsClean()
    ensures Clean("[DONE]")
  {
  }

  lemma {:induction false} CleanAppend(payloads: seq<string>, last: string)
    requires AllClean(payloads) && Clean(last)
    ensures AllClean(payloads + [last])
    decreases |payloads|
  {
    hide Clean;
    if payloads != [] {
      CleanAppend(payloads[1..], last);
      assert (payloads + [last])[1..] == payloads[1..] + [last];
    }
  }
}
