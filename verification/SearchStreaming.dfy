// From Gemini's events to the frames that go to the browser: the event filter of generate_stream
// (crates/kenjaku-infra/src/llm/gemini.rs) and the loop of search_streaming
// (crates/kenjaku-api/src/handlers/search.rs).

module SearchStreaming {
  import opened Wrappers
  import opened Text
  import opened JsonStrings
  import opened MessageStream

  datatype Source = Source(title: string, url: string)

  datatype LlmUsage = LlmUsage(promptTokens: nat, completionTokens: nat, totalTokens: nat, costUsd: real)

  // One server-sent event from Gemini, as far as the filter looks at it.
  datatype GeminiEvent =
    | DoneMarker
    | Malformed
    | Content(text: string, finished: bool, sources: seq<Source>, usage: Option<LlmUsage>)
    | TransportError(message: string)

  datatype StreamChunk = StreamChunk(
    delta: string, finished: bool, grounding: Option<seq<Source>>, usage: Option<LlmUsage>,
    assets: Option<seq<Asset>>, suggestions: Option<seq<string>>)

  type Item = Result<StreamChunk, string>

  type FinalParse = string -> Option<MergedResponse>

  // ---- The event filter --------------------------------------------------------------------

  function TextOf(event: GeminiEvent): string {
    if event.Content? then event.text else ""
  }

  // The item an event becomes when the parser has seen `seen`; some events become none.
  function ItemOf(parse: FinalParse, seen: string, event: GeminiEvent): Option<Item> {
    match event
    case TransportError(message) => Some(Failure(message))
    case Malformed => None
    case DoneMarker =>
      var (a, s) := FinalOf(seen, parse);
      Some(Success(StreamChunk("", true, None, None, Some(a), Some(s))))
    case Content(text, finished, sources, usage) =>
      var delta := DeltaOf(seen, text);
      var grounding := if sources == [] then None else Some(sources);
      var (a, s) := FinalOf(seen + text, parse);
      if delta == "" && !finished && grounding.None? && usage.None? then None
      else Some(Success(StreamChunk(delta, finished, grounding, usage,
                                    if finished then Some(a) else None, if finished then Some(s) else None)))
  }

  function Items(parse: FinalParse, seen: string, events: seq<GeminiEvent>): seq<Item>
    decreases |events|
  {
    if events == [] then [] else
      var rest := Items(parse, seen + TextOf(events[0]), events[1..]);
      match ItemOf(parse, seen, events[0])
      case None => rest
      case Some(item) => [item] + rest
  }

  method OnEvent(parser: MergedJsonStreamParser, parse: FinalParse, event: GeminiEvent) returns (item: Option<Item>)
    requires parser.Valid()
    modifies parser
    ensures parser.Valid() && parser.buffer == old(parser.buffer) + TextOf(event)
    ensures item == ItemOf(parse, old(parser.buffer), event)
  {
    assert parser.buffer + "" == parser.buffer;
    match event {
      case DoneMarker =>
        var assets, suggestions := parser.Finalize(parse);
        return Some(Success(StreamChunk("", true, None, None, Some(assets), Some(suggestions))));
      case Malformed =>
        return None;
      case TransportError(message) =>
        return Some(Failure(message));
      case Content(text, finished, sources, usage) =>
        var delta, _ := parser.Push(text);
        DeltaIsUnique(old(parser.buffer), text, delta);
        var grounding := if sources == [] then None else Some(sources);
        var assets, suggestions := None, None;
        if finished {
          var a, s := parser.Finalize(parse);
          assets, suggestions := Some(a), Some(s);
        }
        if delta == "" && !finished && grounding.None? && usage.None? {
          return None;
        }
        return Some(Success(StreamChunk(delta, finished, grounding, usage, assets, suggestions)));
    }
  }

  lemma {:induction false} DeltaIsUnique(seen: string, text: string, delta: string)
    requires Emitted(seen + text) == Emitted(seen) + delta
    ensures delta == DeltaOf(seen, text)
  {
    assert (Emitted(seen) + delta)[|Emitted(seen)|..] == delta;
  }

  method GenerateStream(parse: FinalParse, events: seq<GeminiEvent>) returns (items: seq<Item>)
    ensures items == Items(parse, "", events)
  {
    var parser := new MergedJsonStreamParser();
    items := [];
    for i := 0 to |events|
      invariant parser.Valid() && fresh(parser)
      invariant items + Items(parse, parser.buffer, events[i..]) == Items(parse, "", events)
    {
      assert events[i..][1..] == events[i + 1..];
      var item := OnEvent(parser, parse, events[i]);
      if item.Some? {
        ConcatAssoc(items, [item.value], Items(parse, parser.buffer, events[i + 1..]));
        items := items + [item.value];
      }
    }
    assert events[|events|..] == [];
  }

  // ---- The handler loop --------------------------------------------------------------------

  datatype Frame = Frame(event: string, data: string)

  function DeltaJson(delta: string): string {
    "{\"text\":" + Serialize(delta) + "}"
  }

  function ErrorJson(message: string): string {
    "{\"error\":" + Serialize(message) + "}"
  }

  predicate Ends(item: Item) {
    item.Failure? || item.value.finished
  }

  // The items the loop takes from the stream: up to the first that ends it.
  function Consumed(items: seq<Item>): seq<Item> {
    if items == [] then []
    else if Ends(items[0]) then [items[0]]
    else [items[0]] + Consumed(items[1..])
  }

  function DeltaText(item: Item): string {
    if item.Success? then item.value.delta else ""
  }

  function Deltas(items: seq<Item>): seq<string> {
    if items == [] then [] else [DeltaText(items[0])] + Deltas(items[1..])
  }

  function FrameOf(delta: string): seq<Frame> {
    if delta == "" then [] else [Frame("delta", DeltaJson(delta))]
  }

  function DeltaFrames(deltas: seq<string>): seq<Frame> {
    if deltas == [] then [] else
      FrameOf(deltas[0]) + DeltaFrames(deltas[1..])
  }

  // What the items leave behind besides their text: grounding sources add up, the rest is overwritten.
  datatype Harvest = Harvest(
    sources: seq<Source>, usage: Option<LlmUsage>, suggestions: seq<string>, assets: seq<Asset>,
    error: Option<string>)

  const EMPTY_HARVEST := Harvest([], None, [], [], None)

  function GetOr<T>(o: Option<T>, default: T): T {
    if o.Some? then o.value else default
  }

  function HarvestItem(h: Harvest, item: Item): Harvest {
    match item
    case Failure(e) => h.(error := Some(e))
    case Success(c) =>
      Harvest(h.sources + GetOr(c.grounding, []), if c.usage.Some? then c.usage else h.usage,
              GetOr(c.suggestions, h.suggestions), GetOr(c.assets, h.assets), h.error)
  }

  function Harvested(h: Harvest, items: seq<Item>): Harvest
    decreases |items|
  {
    if items == [] then h else Harvested(HarvestItem(h, items[0]), items[1..])
  }

  // `complete` stands for complete_stream and the serialization of its result.
  type Completion = (string, Harvest) -> string

  function LastFrame(complete: Completion, text: string, h: Harvest): Frame {
    match h.error
    case Some(e) => Frame("error", ErrorJson(e))
    case None => Frame("done", complete(text, h))
  }

  // Everything the handler sends for a stream that opened.
  function Frames(startJson: string, complete: Completion, items: seq<Item>): seq<Frame> {
    var taken := Consumed(items);
    [Frame("start", startJson)] + DeltaFrames(Deltas(taken))
    + [LastFrame(complete, Flatten(Deltas(taken)), Harvested(EMPTY_HARVEST, taken))]
  }

  // With `rest` of the taken items still to come, the loop has the text, the frames and the harvest of
  // the others.
  ghost predicate Halfway(taken: seq<Item>, rest: seq<Item>, first: Frame, text: string, sent: seq<Frame>, h: Harvest) {
    && Flatten(Deltas(taken)) == text + Flatten(Deltas(rest))
    && [first] + DeltaFrames(Deltas(taken)) == sent + DeltaFrames(Deltas(rest))
    && Harvested(EMPTY_HARVEST, taken) == Harvested(h, rest)
  }

  lemma {:induction false} TakeItem(
    taken: seq<Item>, rest: seq<Item>, first: Frame, text: string, sent: seq<Frame>, h: Harvest)
    requires rest != [] && Halfway(taken, rest, first, text, sent, h)
    ensures var d := DeltaText(rest[0]);
            Halfway(taken, rest[1..], first, text + d, sent + FrameOf(d), HarvestItem(h, rest[0]))
  {
    var d, more := DeltaText(rest[0]), Deltas(rest[1..]);
    assert Deltas(rest) == [d] + more;
    assert ([d] + more)[1..] == more;
    ConcatAssoc(text, d, Flatten(more));
    ConcatAssoc(sent, FrameOf(d), DeltaFrames(more));
  }

  lemma {:induction false} AllTaken(
    startJson: string, complete: Completion, items: seq<Item>, text: string, sent: seq<Frame>, h: Harvest)
    requires Halfway(Consumed(items), [], Frame("start", startJson), text, sent, h)
    ensures sent + [LastFrame(complete, text, h)] == Frames(startJson, complete, items)
  {
    assert text + "" == text && sent + [] == sent;
  }

  method SearchStreaming(stream: Result<seq<Item>, string>, startJson: string, complete: Completion)
    returns (sent: seq<Frame>)
    ensures stream.Failure? ==> sent == [Frame("error", "{\"error\":" + Serialize(stream.error) + "}")]
    ensures stream.Success? ==> sent == Frames(startJson, complete, stream.value)
  {
    if stream.Failure? {
      return [Frame("error", ErrorJson(stream.error))];
    }
    var items := stream.value;
    ghost var first := Frame("start", startJson);
    sent := [Frame("start", startJson)];
    var accumulated := "";
    var groundingSources: seq<Source> := [];
    var lastUsage: Option<LlmUsage> := None;
    var streamError: Option<string> := None;
    var accumulatedSuggestions: seq<string> := [];
    var accumulatedAssets: seq<Asset> := [];
    ghost var taken, h := Consumed(items), EMPTY_HARVEST;
    ghost var rest := taken;
    var i := 0;
    while i < |items|
      invariant i <= |items| && rest == Consumed(items[i..])
      invariant h == Harvest(groundingSources, lastUsage, accumulatedSuggestions, accumulatedAssets, streamError)
      invariant Halfway(taken, rest, first, accumulated, sent, h)
    {
      var item := items[i];
      assert items[i..][0] == item && items[i..][1..] == items[i + 1..];
      assert rest[0] == item && rest[1..] == if Ends(item) then [] else Consumed(items[i + 1..]);
      TakeItem(taken, rest, first, accumulated, sent, h);
      assert accumulated + "" == accumulated && sent + [] == sent;
      rest, h := rest[1..], HarvestItem(h, item);
      i := i + 1;
      match item {
        case Success(chunk) =>
          if chunk.delta != "" {
            accumulated := accumulated + chunk.delta;
            sent := sent + [Frame("delta", DeltaJson(chunk.delta))];
          }
          if chunk.grounding.Some? {
            groundingSources := groundingSources + chunk.grounding.value;
          }
          if chunk.usage.Some? {
            lastUsage := chunk.usage;
          }
          if chunk.suggestions.Some? {
            accumulatedSuggestions := chunk.suggestions.value;
          }
          if chunk.assets.Some? {
            accumulatedAssets := chunk.assets.value;
          }
          if chunk.finished {
            break;
          }
        case Failure(e) =>
          streamError := Some(e);
          break;
      }
    }
    assert items[|items|..] == [];
    AllTaken(startJson, complete, items, accumulated, sent, h);
    var last;
    if streamError.Some? {
      last := Frame("error", ErrorJson(streamError.value));
    } else {
      var harvest := Harvest(groundingSources, lastUsage, accumulatedSuggestions, accumulatedAssets, None);
      assert harvest == h;
      last := Frame("done", complete(accumulated, harvest));
    }
    assert last == LastFrame(complete, accumulated, h);
    sent := sent + [last];
  }

  // ---- What the frames carry ----------------------------------------------------------------

  predicate EndsStream(event: GeminiEvent) {
    event.DoneMarker? || event.TransportError? || (event.Content? && event.finished)
  }

  // The text of the answer that reaches the parser before the stream ends.
  function Received(events: seq<GeminiEvent>): string {
    if events == [] then ""
    else if EndsStream(events[0]) then TextOf(events[0])
    else TextOf(events[0]) + Received(events[1..])
  }

  function ItemText(item: Option<Item>): string {
    if item.Some? then DeltaText(item.value) else ""
  }

  lemma {:induction false} ItemTextIsDelta(parse: FinalParse, seen: string, event: GeminiEvent)
    ensures ItemText(ItemOf(parse, seen, event)) == if event.Content? then DeltaOf(seen, event.text) else ""
  {
  }

  lemma {:induction false} ItemEnds(parse: FinalParse, seen: string, event: GeminiEvent)
    ensures EndsStream(event) <==> ItemOf(parse, seen, event).Some? && Ends(ItemOf(parse, seen, event).value)
  {
  }

  lemma {:induction false} NothingAdded(seen: string)
    ensures seen + "" == seen && Emitted(seen) + "" == Emitted(seen + "")
  {
    assert seen + "" == seen;
  }

  lemma {:induction false} EventAddsDelta(parse: FinalParse, seen: string, event: GeminiEvent)
    ensures Emitted(seen) + ItemText(ItemOf(parse, seen, event)) == Emitted(seen + TextOf(event))
    ensures EndsStream(event) <==> ItemOf(parse, seen, event).Some? && Ends(ItemOf(parse, seen, event).value)
  {
    ItemTextIsDelta(parse, seen, event);
    ItemEnds(parse, seen, event);
    if event.Content? {
      DeltaCompletes(seen, event.text);
    } else {
      NothingAdded(seen);
    }
  }

  // What is taken for the first event, and what for the others.
  lemma {:induction false} ItemsText(parse: FinalParse, seen: string, events: seq<GeminiEvent>, more: string)
    requires events != []
    requires more == if EndsStream(events[0]) then "" else
                       Flatten(Deltas(Consumed(Items(parse, seen + TextOf(events[0]), events[1..]))))
    ensures Flatten(Deltas(Consumed(Items(parse, seen, events)))) == ItemText(ItemOf(parse, seen, events[0])) + more
  {
    EventAddsDelta(parse, seen, events[0]);
    var rest := Items(parse, seen + TextOf(events[0]), events[1..]);
    match ItemOf(parse, seen, events[0])
    case None =>
      NothingBefore(more);
    case Some(item) =>
      ConsumeItem([item] + rest, item, rest);
  }

  lemma {:induction false} ConsumeItem(items: seq<Item>, item: Item, rest: seq<Item>)
    requires items == [item] + rest
    ensures Flatten(Deltas(Consumed(items))) ==
            DeltaText(item) + if Ends(item) then "" else Flatten(Deltas(Consumed(rest)))
  {
    assert items[1..] == rest;
    var more := if Ends(item) then [] else Consumed(rest);
    assert ([item] + more)[1..] == more;
    assert Deltas([item] + more) == [DeltaText(item)] + Deltas(more);
  }

  // The deltas that are sent add up to the decoding of the text received, however Gemini cut it.
  lemma {:induction false} DeltasAddUp(parse: FinalParse, seen: string, events: seq<GeminiEvent>)
    ensures Emitted(seen) + Flatten(Deltas(Consumed(Items(parse, seen, events)))) == Emitted(seen + Received(events))
    decreases |events|
  {
    if events == [] {
      assert seen + "" == seen && Emitted(seen) + "" == Emitted(seen);
    } else {
      var text, piece := TextOf(events[0]), ItemText(ItemOf(parse, seen, events[0]));
      EventAddsDelta(parse, seen, events[0]);
      if EndsStream(events[0]) {
        ItemsText(parse, seen, events, "");
        assert piece + "" == piece;
      } else {
        var more := Flatten(Deltas(Consumed(Items(parse, seen + text, events[1..]))));
        ItemsText(parse, seen, events, more);
        DeltasAddUp(parse, seen + text, events[1..]);
        ConcatAssoc(seen, text, Received(events[1..]));
        ConcatAssoc(Emitted(seen), piece, more);
      }
    }
  }

  lemma {:induction false} DeltasAreEmitted(parse: FinalParse, events: seq<GeminiEvent>)
    ensures Flatten(Deltas(Consumed(Items(parse, "", events)))) == Emitted(Received(events))
  {
    DeltasAddUp(parse, "", events);
    NothingBefore(Flatten(Deltas(Consumed(Items(parse, "", events)))));
    NothingBefore(Received(events));
    assert Emitted("") == "";
  }

  // The stream ends with a finishing event, or Gemini's own end marker, before any error.
  predicate EndsCleanly(events: seq<GeminiEvent>) {
    events != [] && !events[0].TransportError? && (EndsStream(events[0]) || EndsCleanly(events[1..]))
  }

  // Streaming harvests the same assets and suggestions as parsing the received text at once.
  lemma {:induction false} HarvestIsOneShotParse(
    parse: FinalParse, seen: string, events: seq<GeminiEvent>, h: Harvest)
    requires EndsCleanly(events)
    requires forall w :: IsBlank(w) ==> parse(w).None?
    ensures var end := Harvested(h, Consumed(Items(parse, seen, events)));
            var once := ParseMergedResponse(seen + Received(events), parse);
            end.assets == once.1 && end.suggestions == once.2 && end.error == h.error
    decreases |events|
  {
    var text, items := TextOf(events[0]), Items(parse, seen, events);
    var rest := Items(parse, seen + text, events[1..]);
    assert seen + "" == seen;
    if EndsStream(events[0]) {
      var item := ItemOf(parse, seen, events[0]).value;
      assert items[0] == item && Consumed(items) == [item] && Consumed(items)[1..] == [];
    } else {
      ConcatAssoc(seen, text, Received(events[1..]));
      var item := ItemOf(parse, seen, events[0]);
      if item.Some? {
        assert items[0] == item.value && items[1..] == rest;
        assert Consumed(items)[1..] == Consumed(rest);
        HarvestIsOneShotParse(parse, seen + text, events[1..], HarvestItem(h, item.value));
      } else {
        HarvestIsOneShotParse(parse, seen + text, events[1..], h);
      }
    }
  }

  // ---- What else is gathered ----------------------------------------------------------------

  // The error that ends the stream, if one comes before a finishing event.
  function TransportFailure(events: seq<GeminiEvent>): Option<string> {
    if events == [] then None
    else if events[0].TransportError? then Some(events[0].message)
    else if EndsStream(events[0]) then None
    else TransportFailure(events[1..])
  }

  // All grounding sources of the events received, in order.
  function SourcesOf(events: seq<GeminiEvent>): seq<Source> {
    if events == [] then []
    else
      (if events[0].Content? then events[0].sources else []) +
      if EndsStream(events[0]) then [] else SourcesOf(events[1..])
  }

  // The usage of the last event received that carries one.
  function LastUsage(events: seq<GeminiEvent>): Option<LlmUsage> {
    if events == [] then None
    else
      var later := if EndsStream(events[0]) then None else LastUsage(events[1..]);
      if later.Some? then later else if events[0].Content? then events[0].usage else None
  }

  // What one event leaves behind.
  lemma {:induction false} EventIsHarvested(parse: FinalParse, seen: string, event: GeminiEvent, h: Harvest)
    ensures var item := ItemOf(parse, seen, event);
            var after := if item.Some? then HarvestItem(h, item.value) else h;
            && after.sources == h.sources + (if event.Content? then event.sources else [])
            && after.usage == (if event.Content? && event.usage.Some? then event.usage else h.usage)
            && after.error == (if event.TransportError? then Some(event.message) else h.error)
            && (!EndsStream(event) ==> after.assets == h.assets && after.suggestions == h.suggestions)
  {
    assert h.sources + [] == h.sources;
  }

  // The harvest is taken from the first event, and then from the others.
  lemma {:induction false} HarvestUnfolds(parse: FinalParse, seen: string, events: seq<GeminiEvent>, h: Harvest)
    requires events != []
    ensures var item, next := ItemOf(parse, seen, events[0]), seen + TextOf(events[0]);
            var after := if item.Some? then HarvestItem(h, item.value) else h;
            Harvested(h, Consumed(Items(parse, seen, events))) ==
              if EndsStream(events[0]) then after else Harvested(after, Consumed(Items(parse, next, events[1..])))
  {
    ItemEnds(parse, seen, events[0]);
    var item, rest := ItemOf(parse, seen, events[0]), Items(parse, seen + TextOf(events[0]), events[1..]);
    if item.Some? {
      HarvestFirst(h, item.value, rest);
    }
  }

  lemma {:induction false} HarvestFirst(h: Harvest, item: Item, rest: seq<Item>)
    ensures Harvested(h, Consumed([item] + rest)) ==
            if Ends(item) then HarvestItem(h, item) else Harvested(HarvestItem(h, item), Consumed(rest))
  {
    assert ([item] + rest)[1..] == rest;
    assert ([item] + Consumed(rest))[1..] == Consumed(rest) && [item][1..] == [];
  }

  lemma {:induction false} HarvestIsReceived(parse: FinalParse, seen: string, events: seq<GeminiEvent>, h: Harvest)
    ensures var end := Harvested(h, Consumed(Items(parse, seen, events)));
            && end.sources == h.sources + SourcesOf(events)
            && end.usage == (if LastUsage(events).Some? then LastUsage(events) else h.usage)
            && end.error == (if TransportFailure(events).Some? then TransportFailure(events) else h.error)
            && (!EndsCleanly(events) ==> end.assets == h.assets && end.suggestions == h.suggestions)
    decreases |events|
  {
    if events == [] {
      assert h.sources + [] == h.sources;
    } else {
      var item, event := ItemOf(parse, seen, events[0]), events[0];
      var after := if item.Some? then HarvestItem(h, item.value) else h;
      HarvestUnfolds(parse, seen, events, h);
      EventIsHarvested(parse, seen, event, h);
      var own := if event.Content? then event.sources else [];
      if EndsStream(event) {
        assert own + [] == own;
      } else {
        HarvestIsReceived(parse, seen + TextOf(event), events[1..], after);
        ConcatAssoc(h.sources, own, SourcesOf(events[1..]));
      }
    }
  }

  // The events count up to the first that finishes: the done marker, a content event with a finish reason, or
  // an error of the connection.
  lemma {:induction false} EventsCountToTheEnd(event: GeminiEvent, rest: seq<GeminiEvent>)
    ensures var ends := event.DoneMarker? || event.TransportError? || (event.Content? && event.finished);
            var text := if event.Content? then event.text else "";
            var sources := if event.Content? then event.sources else [];
            && Received([event] + rest) == text + (if ends then "" else Received(rest))
            && SourcesOf([event] + rest) == sources + (if ends then [] else SourcesOf(rest))
            && (EndsCleanly([event] + rest) <==> !event.TransportError? && (ends || EndsCleanly(rest)))
            && (TransportFailure([event] + rest).Some? <==>
                  event.TransportError? || (!ends && TransportFailure(rest).Some?))
    ensures Received([]) == "" && SourcesOf([]) == [] && !EndsCleanly([]) && TransportFailure([]).None?
  {
    assert ([event] + rest)[1..] == rest;
    if EndsStream(event) {
      assert TextOf(event) + "" == TextOf(event);
    }
  }

  // What the handler gives to complete_stream, in terms of the events alone.
  function Gathered(parse: FinalParse, events: seq<GeminiEvent>): Harvest {
    var once := ParseMergedResponse(Received(events), parse);
    var clean := EndsCleanly(events);
    Harvest(SourcesOf(events), LastUsage(events), if clean then once.2 else [], if clean then once.1 else [],
            TransportFailure(events))
  }

  lemma {:induction false} HarvestIsGathered(parse: FinalParse, events: seq<GeminiEvent>)
    requires forall w :: IsBlank(w) ==> parse(w).None?
    ensures Harvested(EMPTY_HARVEST, Consumed(Items(parse, "", events))) == Gathered(parse, events)
  {
    HarvestIsReceived(parse, "", events, EMPTY_HARVEST);
    assert [] + SourcesOf(events) == SourcesOf(events);
    if EndsCleanly(events) {
      HarvestIsOneShotParse(parse, "", events, EMPTY_HARVEST);
      NothingBefore(Received(events));
    }
  }
}
