// The browser's reader of the event stream (geto-web/app.js, handleStreamResponse).

module SseClient {
  import opened Wrappers
  import opened Text
  import opened LineFeeds

  // ---- Events ------------------------------------------------------------------------------

  // White space as String.prototype.trim sees it.
  predicate IsJsSpace(c: char) {
    c == '\U{FEFF}' || (IsWhitespace(c) && c != '\U{0085}')
  }

  datatype Dispatch = Dispatch(event: string, data: string)

  function DataOf(line: string): string
    requires |line| >= 5
  {
    if |line| > 5 && line[5] == ' ' then line[6..] else line[5..]
  }

  function EventAfter(event: Option<string>, line: string): Option<string> {
    if line == "" || line == "\r" then None
    else if StartsWith(line, "event:") then Some(TrimBy(IsJsSpace, line[6..]))
    else event
  }

  // An unnamed event is a "message"; so is one whose name is empty.
  function EventName(event: Option<string>): string {
    if event.Some? && event.value != "" then event.value else "message"
  }

  function DispatchesOf(event: Option<string>, line: string): seq<Dispatch> {
    if line == "" || line == "\r" || StartsWith(line, "event:") || !StartsWith(line, "data:") then []
    else [Dispatch(EventName(event), DataOf(line))]
  }

  // White space of ECMA-262, sections 12.2 and 12.3.
  lemma {:induction false} JsSpaceTable(c: char)
    ensures IsJsSpace(c) <==>
            || 0x9 <= c as int <= 0xD || 0x2000 <= c as int <= 0x200A
            || c as int in {0x20, 0xA0, 0x1680, 0x2028, 0x2029, 0x202F, 0x205F, 0x3000, 0xFEFF}
  {
  }

  // Lines by their form: the end of an event, its name, its data with or without a blank, and others.
  lemma {:induction false} LineForms(event: Option<string>, name: string, data: string, line: string)
    ensures EventAfter(event, "") == EventAfter(event, "\r") == None
    ensures DispatchesOf(event, "") == DispatchesOf(event, "\r") == []
    ensures EventAfter(event, "event:" + name) == Some(TrimBy(IsJsSpace, name))
    ensures DispatchesOf(event, "event:" + name) == []
    ensures EventAfter(event, "data:" + data) == event
    ensures DispatchesOf(event, "data: " + data) == [Dispatch(EventName(event), data)]
    ensures data == "" || data[0] != ' ' ==> DispatchesOf(event, "data:" + data) == [Dispatch(EventName(event), data)]
    ensures line != "" && line[0] !in {'\r', 'e', 'd'} ==>
              EventAfter(event, line) == event && DispatchesOf(event, line) == []
    ensures EventName(None) == EventName(Some("")) == "message" && (name != "" ==> EventName(Some(name)) == name)
  {
    NamedLine(event, name);
    DataForms(event, data);
    if line != "" && line[0] !in {'\r', 'e', 'd'} {
      OtherStart(line, "event:");
      OtherStart(line, "data:");
    }
  }

  lemma {:induction false} OtherStart(s: string, prefix: string)
    requires s != "" && prefix != "" && s[0] != prefix[0]
    ensures !StartsWith(s, prefix)
  {
    assert |prefix| <= |s| ==> s[..|prefix|][0] == s[0];
  }

  lemma {:induction false} NamedLine(event: Option<string>, name: string)
    ensures EventAfter(event, "event:" + name) == Some(TrimBy(IsJsSpace, name))
    ensures DispatchesOf(event, "event:" + name) == []
  {
    var line := "event:" + name;
    assert line[..6] == "event:" && line[6..] == name;
  }

  lemma {:induction false} DataForms(event: Option<string>, data: string)
    ensures EventAfter(event, "data:" + data) == event
    ensures DispatchesOf(event, "data: " + data) == [Dispatch(EventName(event), data)]
    ensures data == "" || data[0] != ' ' ==> DispatchesOf(event, "data:" + data) == [Dispatch(EventName(event), data)]
  {
    var line, blank := "data:" + data, "data: " + data;
    assert line[..5] == "data:" && line[5..] == data && line[0] == 'd';
    assert blank[..5] == "data:" && blank[5] == ' ' && blank[6..] == data && blank[0] == 'd';
    OtherStart(line, "event:");
    OtherStart(blank, "event:");
  }

  function CurrentEvent(event: Option<string>, lines: seq<string>): Option<string>
    decreases |lines|
  {
    if lines == [] then event else CurrentEvent(EventAfter(event, lines[0]), lines[1..])
  }

  function Dispatches(event: Option<string>, lines: seq<string>): seq<Dispatch>
    decreases |lines|
  {
    if lines == [] then [] else
      DispatchesOf(event, lines[0]) + Dispatches(EventAfter(event, lines[0]), lines[1..])
  }

  lemma {:induction false} DispatchesAppend(event: Option<string>, a: seq<string>, b: seq<string>)
    ensures Dispatches(event, a + b) == Dispatches(event, a) + Dispatches(CurrentEvent(event, a), b)
    ensures CurrentEvent(event, a + b) == CurrentEvent(CurrentEvent(event, a), b)
    decreases |a|
  {
    if a == [] {
      assert a + b == b;
    } else {
      assert (a + b)[1..] == a[1..] + b;
      DispatchesAppend(EventAfter(event, a[0]), a[1..], b);
      ConcatAssoc(DispatchesOf(event, a[0]), Dispatches(EventAfter(event, a[0]), a[1..]),
                  Dispatches(CurrentEvent(event, a), b));
    }
  }

  // `readText` stands for JSON.parse followed by taking the text of the payload; None when it throws.
  type TextReader = string -> Option<string>

  function TextOf(readText: TextReader, d: Dispatch): string {
    if d.event == "delta" && readText(d.data).Some? then readText(d.data).value else ""
  }

  function TextOfAll(readText: TextReader, ds: seq<Dispatch>): string {
    if ds == [] then "" else TextOf(readText, ds[0]) + TextOfAll(readText, ds[1..])
  }

  lemma {:induction false} TextOfAppend(readText: TextReader, a: seq<Dispatch>, b: seq<Dispatch>)
    ensures TextOfAll(readText, a + b) == TextOfAll(readText, a) + TextOfAll(readText, b)
  {
    if a == [] {
      assert a + b == b;
    } else {
      assert (a + b)[1..] == a[1..] + b;
      TextOfAppend(readText, a[1..], b);
      ConcatAssoc(TextOf(readText, a[0]), TextOfAll(readText, a[1..]), TextOfAll(readText, b));
    }
  }

  // What a reader of the whole text at once would dispatch.
  function AllDispatches(text: string): seq<Dispatch> {
    Dispatches(None, Lines(text))
  }

  // `rest` of the new lines is still to be handled.
  ghost predicate Halfway(
    all: seq<Dispatch>, last: Option<string>, event: Option<string>, handled: seq<Dispatch>, rest: seq<string>)
  {
    all == handled + Dispatches(event, rest) && last == CurrentEvent(event, rest)
  }

  lemma {:induction false} TakeLine(
    all: seq<Dispatch>, last: Option<string>, event: Option<string>, handled: seq<Dispatch>, line: string,
    rest: seq<string>)
    requires Halfway(all, last, event, handled, [line] + rest)
    ensures Halfway(all, last, EventAfter(event, line), handled + DispatchesOf(event, line), rest)
  {
    assert ([line] + rest)[1..] == rest;
    ConcatAssoc(handled, DispatchesOf(event, line), Dispatches(EventAfter(event, line), rest));
  }

  // ---- The reader --------------------------------------------------------------------------

  class StreamReader {
    const readText: TextReader
    var buffer: string
    var currentEvent: Option<string>
    var streamingText: string
    var handled: seq<Dispatch> // the data lines so far, each with the event it belongs to
    ghost var received: string

    ghost predicate Valid()
      reads this
    {
      && buffer == Unfinished(received)
      && currentEvent == CurrentEvent(None, Lines(received))
      && handled == AllDispatches(received)
      && streamingText == TextOfAll(readText, handled)
    }

    constructor (readText: TextReader)
      ensures Valid() && received == "" && this.readText == readText
    {
      this.readText := readText;
      buffer, currentEvent, streamingText, handled, received := "", None, "", [], "";
    }

    method Read(chunk: string)
      requires Valid()
      modifies this
      ensures Valid() && received == old(received) + chunk
    {
      ghost var w := received + chunk;
      ghost var all, last := AllDispatches(w), CurrentEvent(None, Lines(w));
      LinesAppend(received, chunk);
      DispatchesAppend(None, Lines(received), Lines(buffer + chunk));
      received := w;
      buffer := buffer + chunk;
      var parts := Split(buffer);
      buffer := parts[|parts| - 1];
      var lines := parts[..|parts| - 1];
      assert lines[0..] == lines;
      for i := 0 to |lines|
        invariant received == w && buffer == Unfinished(w)
        invariant Halfway(all, last, currentEvent, handled, lines[i..])
        invariant streamingText == TextOfAll(readText, handled)
      {
        SliceFirst(lines, i);
        TakeLine(all, last, currentEvent, handled, lines[i], lines[i + 1..]);
        HandleLine(lines[i]);
      }
      assert lines[|lines|..] == [] && handled + [] == handled;
    }

    method HandleLine(line: string)
      requires streamingText == TextOfAll(readText, handled)
      modifies `currentEvent, `handled, `streamingText
      ensures currentEvent == EventAfter(old(currentEvent), line)
      ensures handled == old(handled) + DispatchesOf(old(currentEvent), line)
      ensures streamingText == TextOfAll(readText, handled)
    {
      if line == "" || line == "\r" {
        currentEvent := None;
        return;
      }
      if StartsWith(line, "event:") {
        currentEvent := Some(TrimBy(IsJsSpace, line[6..]));
        return;
      }
      if StartsWith(line, "data:") {
        var data := line[5..];
        if data != "" && data[0] == ' ' {
          data := data[1..];
        }
        assert data == DataOf(line);
        HandleSseEvent(EventName(currentEvent), data);
      }
    }

    method HandleSseEvent(event: string, data: string)
      requires streamingText == TextOfAll(readText, handled)
      modifies `handled, `streamingText
      ensures handled == old(handled) + [Dispatch(event, data)]
      ensures streamingText == TextOfAll(readText, handled)
    {
      TextOfAppend(readText, handled, [Dispatch(event, data)]);
      handled := handled + [Dispatch(event, data)];
      if event == "delta" {
        var text := readText(data);
        if text.Some? {
          streamingText := streamingText + text.value;
        }
      }
    }
  }

  method HandleStreamResponse(readText: TextReader, chunks: seq<string>)
    returns (handled: seq<Dispatch>, streamingText: string)
    ensures handled == AllDispatches(Flatten(chunks))
    ensures streamingText == TextOfAll(readText, handled)
  {
    var reader := new StreamReader(readText);
    for i := 0 to |chunks|
      invariant reader.Valid() && fresh(reader) && reader.readText == readText
      invariant reader.received + Flatten(chunks[i..]) == Flatten(chunks)
    {
      assert chunks[i..][1..] == chunks[i + 1..];
      ConcatAssoc(reader.received, chunks[i], Flatten(chunks[i + 1..]));
      reader.Read(chunks[i]);
    }
    assert chunks[|chunks|..] == [];
    assert reader.received == Flatten(chunks);
    return reader.handled, reader.streamingText;
  }
}
