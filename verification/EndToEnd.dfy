// The whole path of an answer: Gemini's events, the parser, the handler's frames, the bytes on the
// wire, the browser's reads.

module EndToEnd {
  import opened Wrappers
  import opened Text
  import opened LineFeeds
  import opened JsonStrings
  import opened KeySearch
  import opened MessageStream
  import opened MessageMeaning
  import S = SearchStreaming
  import C = SseClient

  // How the web framework writes one named event.
  function Wire(f: S.Frame): string {
    "event: " + f.event + "\n" + ("data: " + f.data + "\n" + ("" + "\n"))
  }

  function WireAll(frames: seq<S.Frame>): string {
    if frames == [] then "" else Wire(frames[0]) + WireAll(frames[1..])
  }

  const EVENT_NAMES := {"start", "delta", "done", "error"}

  predicate Sendable(f: S.Frame) {
    f.event in EVENT_NAMES && OneLine(f.data)
  }

  predicate AllSendable(frames: seq<S.Frame>) {
    forall f :: f in frames ==> Sendable(f)
  }

  function DispatchOf(f: S.Frame): C.Dispatch {
    C.Dispatch(f.event, f.data)
  }

  function DispatchesOf(frames: seq<S.Frame>): seq<C.Dispatch> {
    if frames == [] then [] else [DispatchOf(frames[0])] + DispatchesOf(frames[1..])
  }

  lemma {:induction false} WireLines(f: S.Frame, rest: string)
    requires Sendable(f)
    ensures Lines(Wire(f) + rest) == ["event: " + f.event, "data: " + f.data, ""] + Lines(rest)
  {
    var e, d := "event: " + f.event, "data: " + f.data;
    var end := "" + "\n" + rest;
    var tail := d + "\n" + end;
    assert Wire(f) + rest == e + "\n" + tail;
    SplitLine(e, tail);
    SplitLine(d, end);
    SplitLine("", rest);
    assert Split(Wire(f) + rest) == [e, d, ""] + Split(rest);
  }

  lemma {:induction false} EventLine(name: string)
    requires name in EVENT_NAMES
    ensures C.EventAfter(None, "event: " + name) == Some(name)
    ensures C.DispatchesOf(None, "event: " + name) == []
  {
    var line := "event: " + name;
    assert line[..6] == "event:" && line[6..] == " " + name + "";
    TrimKeeps(C.IsJsSpace, " ", name, "");
  }

  lemma {:induction false} DataLine(name: string, data: string)
    requires name in EVENT_NAMES
    ensures C.EventAfter(Some(name), "data: " + data) == Some(name)
    ensures C.DispatchesOf(Some(name), "data: " + data) == [C.Dispatch(name, data)]
  {
    var line := "data: " + data;
    assert line[..5] == "data:" && line[5] == ' ' && line[6..] == data;
    assert line[..6][0] == 'd' && "event:"[0] == 'e';
  }

  // The browser handles exactly the frames that were sent.
  lemma {:induction false} BrowserSeesFrames(frames: seq<S.Frame>)
    requires AllSendable(frames)
    ensures C.AllDispatches(WireAll(frames)) == DispatchesOf(frames)
  {
    if frames != [] {
      var f, rest := frames[0], WireAll(frames[1..]);
      BrowserSeesFrames(frames[1..]);
      assert Sendable(f);
      var e, d := "event: " + f.event, "data: " + f.data;
      WireLines(f, rest);
      EventLine(f.event);
      DataLine(f.event, f.data);
      HandleFrame(e, d, f, Lines(rest));
    }
  }

  lemma {:induction false} HandleFrame(e: string, d: string, f: S.Frame, rest: seq<string>)
    requires C.EventAfter(None, e) == Some(f.event) && C.DispatchesOf(None, e) == []
    requires C.EventAfter(Some(f.event), d) == Some(f.event)
    requires C.DispatchesOf(Some(f.event), d) == [DispatchOf(f)]
    ensures C.Dispatches(None, [e, d, ""] + rest) == [DispatchOf(f)] + C.Dispatches(None, rest)
  {
    var all := [e, d, ""] + rest;
    assert all[1..] == [d, ""] + rest && all[1..][1..] == [""] + rest && all[1..][1..][1..] == rest;
    assert C.Dispatches(Some(f.event), [""] + rest) == [] + C.Dispatches(None, rest);
    assert C.Dispatches(Some(f.event), [d, ""] + rest) == [DispatchOf(f)] + C.Dispatches(Some(f.event), [""] + rest);
    assert C.Dispatches(None, all) == [] + C.Dispatches(Some(f.event), [d, ""] + rest);
  }

  // ---- Text --------------------------------------------------------------------------------

  // A browser reader that reads back what serde_json wrote.
  ghost predicate ReadsDeltas(readText: C.TextReader) {
    forall d :: readText(S.DeltaJson(d)) == Some(d)
  }

  // A concrete one: an object with the single member "text", its string as RFC 8259 reads it.
  function ReadTextPayload(data: string): Option<string> {
    if |data| < 9 || data[..9] != "{\"text\":\"" then None else
      match ReadString(data[9..])
      case None => None
      case Some((text, after)) => if after == "}" then Some(text) else None
  }

  lemma {:induction false} ReadTextPayloadReadsDeltas()
    ensures ReadsDeltas(ReadTextPayload)
  {
    forall d ensures ReadTextPayload(S.DeltaJson(d)) == Some(d) {
      SerializeRoundTrip(d, "}");
      var data, value := S.DeltaJson(d), Serialize(d) + "}";
      ConcatAssoc("{\"text\":", Serialize(d), "}");
      SplitBehind("{\"text\":", value, data);
      assert "{\"text\":" + [value[0]] == "{\"text\":\"";
    }
  }

  lemma {:induction false} SplitBehind(head: string, value: string, data: string)
    requires value != "" && data == head + value
    ensures |data| > |head| && data[..|head| + 1] == head + [value[0]] && data[|head| + 1..] == value[1..]
  {
  }

  lemma {:induction false} TextOfCons(readText: C.TextReader, f: S.Frame, frames: seq<S.Frame>)
    ensures C.TextOfAll(readText, DispatchesOf([f] + frames)) ==
            C.TextOf(readText, DispatchOf(f)) + C.TextOfAll(readText, DispatchesOf(frames))
  {
    assert ([f] + frames)[1..] == frames;
    assert DispatchesOf([f] + frames)[1..] == DispatchesOf(frames);
  }

  lemma {:induction false} TextOfDeltaFrames(readText: C.TextReader, deltas: seq<string>, last: S.Frame)
    requires ReadsDeltas(readText) && last.event != "delta"
    ensures C.TextOfAll(readText, DispatchesOf(S.DeltaFrames(deltas) + [last])) == Flatten(deltas)
  {
    if deltas == [] {
      TextOfCons(readText, last, []);
      assert S.DeltaFrames(deltas) + [last] == [last] + [];
    } else {
      var d, more := deltas[0], S.DeltaFrames(deltas[1..]) + [last];
      TextOfDeltaFrames(readText, deltas[1..], last);
      ConcatAssoc(S.FrameOf(d), S.DeltaFrames(deltas[1..]), [last]);
      if d == "" {
        assert S.FrameOf(d) + more == more;
      } else {
        TextOfCons(readText, S.FrameOf(d)[0], more);
      }
    }
  }

  lemma {:induction false} OneLineConcat(a: string, b: string)
    requires OneLine(a) && OneLine(b)
    ensures OneLine(a + b)
  {
  }

  lemma {:induction false} PayloadsAreOneLine(text: string)
    ensures OneLine(S.DeltaJson(text)) && OneLine(S.ErrorJson(text))
  {
    SerializeRoundTrip(text, "");
    OneLineConcat("{\"text\":", Serialize(text));
    OneLineConcat("{\"text\":" + Serialize(text), "}");
    OneLineConcat("{\"error\":", Serialize(text));
    OneLineConcat("{\"error\":" + Serialize(text), "}");
  }

  lemma {:induction false} DeltaFramesSendable(deltas: seq<string>)
    ensures AllSendable(S.DeltaFrames(deltas))
  {
    if deltas != [] {
      DeltaFramesSendable(deltas[1..]);
      PayloadsAreOneLine(deltas[0]);
    }
  }

  lemma {:induction false} FramesSendable(startJson: string, complete: S.Completion, items: seq<S.Item>)
    requires OneLine(startJson) && forall t, h :: OneLine(complete(t, h))
    ensures AllSendable(S.Frames(startJson, complete, items))
  {
    var taken := S.Consumed(items);
    DeltaFramesSendable(S.Deltas(taken));
    var h := S.Harvested(S.EMPTY_HARVEST, taken);
    if h.error.Some? {
      PayloadsAreOneLine(h.error.value);
    }
  }

  lemma {:induction false} TextOfFrames(
    readText: C.TextReader, startJson: string, complete: S.Completion, items: seq<S.Item>)
    requires ReadsDeltas(readText)
    ensures C.TextOfAll(readText, DispatchesOf(S.Frames(startJson, complete, items))) ==
            Flatten(S.Deltas(S.Consumed(items)))
  {
    var taken := S.Consumed(items);
    var first, deltas := S.Frame("start", startJson), S.Deltas(taken);
    var last := S.LastFrame(complete, Flatten(deltas), S.Harvested(S.EMPTY_HARVEST, taken));
    TextOfDeltaFrames(readText, deltas, last);
    ConcatAssoc([first], S.DeltaFrames(deltas), [last]);
    TextOfCons(readText, first, S.DeltaFrames(deltas) + [last]);
  }

  lemma {:induction false} DispatchesOfAppend(a: seq<S.Frame>, b: seq<S.Frame>)
    ensures DispatchesOf(a + b) == DispatchesOf(a) + DispatchesOf(b)
  {
    if a == [] {
      assert a + b == b;
    } else {
      assert (a + b)[1..] == a[1..] + b;
      DispatchesOfAppend(a[1..], b);
    }
  }

  lemma {:induction false} DeltaDispatches(deltas: seq<string>)
    ensures forall d :: d in DispatchesOf(S.DeltaFrames(deltas)) ==> d.event == "delta"
  {
    if deltas != [] {
      DeltaDispatches(deltas[1..]);
      DispatchesOfAppend(S.FrameOf(deltas[0]), S.DeltaFrames(deltas[1..]));
      if deltas[0] != "" {
        assert S.FrameOf(deltas[0])[1..] == [];
      }
    }
  }

  // The last event: the error that ended the stream, or what the answer was completed to.
  function LastDispatch(parse: S.FinalParse, events: seq<S.GeminiEvent>, complete: S.Completion): C.Dispatch {
    match S.TransportFailure(events)
    case Some(message) => C.Dispatch("error", "{\"error\":" + Serialize(message) + "}")
    case None => C.Dispatch("done", complete(Emitted(S.Received(events)), S.Gathered(parse, events)))
  }

  lemma {:induction false} FramesEnd(
    parse: S.FinalParse, events: seq<S.GeminiEvent>, startJson: string, complete: S.Completion)
    requires forall w :: IsBlank(w) ==> parse(w).None?
    ensures exists deltas ::
              DispatchesOf(S.Frames(startJson, complete, S.Items(parse, "", events))) ==
              [C.Dispatch("start", startJson)] + DispatchesOf(S.DeltaFrames(deltas))
              + [LastDispatch(parse, events, complete)]
  {
    var taken := S.Consumed(S.Items(parse, "", events));
    var first, deltas := S.Frame("start", startJson), S.Deltas(taken);
    var last := S.LastFrame(complete, Flatten(deltas), S.Harvested(S.EMPTY_HARVEST, taken));
    S.DeltasAreEmitted(parse, events);
    S.HarvestIsGathered(parse, events);
    DispatchesOfAppend([first] + S.DeltaFrames(deltas), [last]);
    DispatchesOfAppend([first], S.DeltaFrames(deltas));
    assert [first][1..] == [] && [last][1..] == [];
    assert DispatchesOf([first]) == [C.Dispatch("start", startJson)];
    assert DispatchesOf([last]) == [LastDispatch(parse, events, complete)];
  }

  // What the browser dispatches for an answer: start, then deltas only, then one last event. That is the
  // error if a transport error came before the stream ended; otherwise it is done, and complete_stream was
  // given the emitted text, all grounding sources in order, the last usage, and the parsed lists.
  lemma {:induction false} BrowserSeesAnswer(
    parse: S.FinalParse, events: seq<S.GeminiEvent>, startJson: string, complete: S.Completion, chunks: seq<string>)
    requires OneLine(startJson) && forall t, h :: OneLine(complete(t, h))
    requires forall w :: IsBlank(w) ==> parse(w).None?
    requires Flatten(chunks) == WireAll(S.Frames(startJson, complete, S.Items(parse, "", events)))
    ensures var ds := C.AllDispatches(Flatten(chunks));
            && |ds| >= 2 && ds[0] == C.Dispatch("start", startJson)
            && (forall i :: 0 < i < |ds| - 1 ==> ds[i].event == "delta")
            && ds[|ds| - 1] == LastDispatch(parse, events, complete)
  {
    var items := S.Items(parse, "", events);
    FramesSendable(startJson, complete, items);
    BrowserSeesFrames(S.Frames(startJson, complete, items));
    FramesEnd(parse, events, startJson, complete);
    var deltas :| DispatchesOf(S.Frames(startJson, complete, items)) ==
      [C.Dispatch("start", startJson)] + DispatchesOf(S.DeltaFrames(deltas)) + [LastDispatch(parse, events, complete)];
    DeltaDispatches(deltas);
  }

  // However Gemini cuts its answer into events and however the network cuts the frames into reads, the
  // browser's text is the decoding of the message text that reached the parser.
  lemma {:induction false} BrowserTextIsEmittedText(
    parse: S.FinalParse, events: seq<S.GeminiEvent>, startJson: string, complete: S.Completion,
    readText: C.TextReader, chunks: seq<string>)
    requires ReadsDeltas(readText)
    requires OneLine(startJson) && forall t, h :: OneLine(complete(t, h))
    requires Flatten(chunks) == WireAll(S.Frames(startJson, complete, S.Items(parse, "", events)))
    ensures C.TextOfAll(readText, C.AllDispatches(Flatten(chunks))) == Emitted(S.Received(events))
  {
    var items := S.Items(parse, "", events);
    FramesSendable(startJson, complete, items);
    BrowserSeesFrames(S.Frames(startJson, complete, items));
    TextOfFrames(readText, startJson, complete, items);
    S.DeltasAreEmitted(parse, events);
  }

  // End to end: when Gemini's text is JSON whose message is written `us`, the browser shows the message
  // exactly when `us` has no \u escape.
  lemma {:induction false} BrowserShowsMessage(
    parse: S.FinalParse, events: seq<S.GeminiEvent>, startJson: string, complete: S.Completion,
    chunks: seq<string>, us: seq<Unit>, tail: string)
    requires OneLine(startJson) && forall t, h :: OneLine(complete(t, h))
    requires Flatten(chunks) == WireAll(S.Frames(startJson, complete, S.Items(parse, "", events)))
    requires AllValid(us) && ValueStart(KEY, S.Received(events), 0).Some?
    requires S.Received(events)[ValueStart(KEY, S.Received(events), 0).value..] == Print(us) + "\"" + tail
    ensures var text := C.TextOfAll(ReadTextPayload, C.AllDispatches(Flatten(chunks)));
            && text == Streamed(us)
            && (text == Meaning(us) <==> forall u :: u in us ==> !IsUnicodeEscape(u))
  {
    ReadTextPayloadReadsDeltas();
    BrowserTextIsEmittedText(parse, events, startJson, complete, ReadTextPayload, chunks);
    ConcatAssoc(Print(us), "\"", tail);
    DecodeUnits(us, "\"" + tail);
    StreamedIsMessage(us);
  }

  // The same on the JSON text of the answer.
  lemma {:induction false} BrowserShowsAnswer(
    parse: S.FinalParse, events: seq<S.GeminiEvent>, startJson: string, complete: S.Completion,
    chunks: seq<string>, a: Answer)
    requires OneLine(startJson) && forall t, h :: OneLine(complete(t, h))
    requires Flatten(chunks) == WireAll(S.Frames(startJson, complete, S.Items(parse, "", events)))
    requires IsAnswer(a) && S.Received(events) == AnswerText(a)
    ensures var text := C.TextOfAll(ReadTextPayload, C.AllDispatches(Flatten(chunks)));
            && text == Streamed(a.message)
            && (text == Meaning(a.message) <==> forall u :: u in a.message ==> !IsUnicodeEscape(u))
  {
    FoundInAnswer(a);
    BrowserShowsMessage(parse, events, startJson, complete, chunks, a.message, a.tail);
  }
}
