// The streaming parser of the merged JSON answer {"message": "...", "assets": [...], "suggestions": [...]}
// (crates/kenjaku-infra/src/llm/gemini.rs). Positions count characters.

module MessageStream {
  import opened Wrappers
  import opened Text
  import opened JsonStrings
  import opened KeySearch

  const KEY := "\"message\""

  method FindMessageValueStart(buffer: string, from: nat) returns (r: Option<nat>)
    ensures r == ValueStart(KEY, buffer, from)
  {
    r := FindValueStart(KEY, buffer, from);
  }

  // ---- Decoding the message value, as an automaton over single characters -----------------

  datatype DecoderState = Plain | Escaped | Finished

  datatype Decoded = Decoded(state: DecoderState, text: string)

  // A \u escape is passed on as it is written; every other escape becomes one character.
  function DecodeChar(q: DecoderState, c: char): Decoded {
    match q
    case Plain =>
      if c == '\\' then Decoded(Escaped, "")
      else if c == '"' then Decoded(Finished, "")
      else Decoded(Plain, [c])
    case Escaped => Decoded(Plain, if c == 'u' then "\\u" else [Unescape(c)])
    case Finished => Decoded(Finished, "")
  }

  function Decode(q: DecoderState, s: string): Decoded
    decreases |s|
  {
    if s == "" then Decoded(q, "") else
      var first := DecodeChar(q, s[0]);
      var more := Decode(first.state, s[1..]);
      Decoded(more.state, first.text + more.text)
  }

  lemma {:induction false} DecodeAppend(q: DecoderState, a: string, b: string)
    ensures var d := Decode(q, a);
            var e := Decode(d.state, b);
            Decode(q, a + b) == Decoded(e.state, d.text + e.text)
    decreases |a|
  {
    if a == "" {
      assert a + b == b;
    } else {
      assert (a + b)[1..] == a[1..] + b;
      var first := DecodeChar(q, a[0]);
      DecodeAppend(first.state, a[1..], b);
      ConcatAssoc(first.text, Decode(first.state, a[1..]).text, Decode(Decode(q, a).state, b).text);
    }
  }

  // ---- What the parser has done with a text, however it was cut ----------------------------

  datatype ParseState = Seeking | Inside | AfterClose

  datatype Snapshot = Snapshot(state: ParseState, pendingEscape: bool, scanPos: nat)

  function SnapshotAt(q: DecoderState, end: nat): Snapshot {
    match q
    case Plain => Snapshot(Inside, false, end)
    case Escaped => Snapshot(Inside, true, end)
    case Finished => Snapshot(AfterClose, false, end)
  }

  function After(w: string): Snapshot {
    match ValueStart(KEY, w, 0)
    case None => Snapshot(Seeking, false, 0)
    case Some(p) => SnapshotAt(Decode(Plain, w[p..]).state, |w|)
  }

  function Emitted(w: string): string {
    match ValueStart(KEY, w, 0)
    case None => ""
    case Some(p) => Decode(Plain, w[p..]).text
  }

  // Text that has been emitted is never taken back.
  lemma {:induction false} EmittedGrows(w: string, t: string)
    ensures Emitted(w) <= Emitted(w + t)
    ensures ValueStart(KEY, w, 0).Some? ==>
              var p := ValueStart(KEY, w, 0).value;
              var d := Decode(Plain, w[p..]);
              && ValueStart(KEY, w + t, 0) == Some(p) && (w + t)[p..] == w[p..] + t
              && Decode(Plain, (w + t)[p..]) == Decoded(Decode(d.state, t).state, d.text + Decode(d.state, t).text)
  {
    if ValueStart(KEY, w, 0).Some? {
      FoundStaysFound(KEY, w, t, 0);
      var p := ValueStart(KEY, w, 0).value;
      assert (w + t)[p..] == w[p..] + t;
      DecodeAppend(Plain, w[p..], t);
    }
  }

  function DeltaOf(seen: string, text: string): string {
    EmittedGrows(seen, text);
    Emitted(seen + text)[|Emitted(seen)|..]
  }

  function DeltasOf(seen: string, chunks: seq<string>): seq<string>
    decreases |chunks|
  {
    if chunks == [] then [] else [DeltaOf(seen, chunks[0])] + DeltasOf(seen + chunks[0], chunks[1..])
  }

  // Chunking invariance: the deltas of any cutting add up to the decoding of the whole text.
  lemma {:induction false} DeltasTelescope(seen: string, chunks: seq<string>)
    ensures Emitted(seen) + Flatten(DeltasOf(seen, chunks)) == Emitted(seen + Flatten(chunks))
    decreases |chunks|
  {
    if chunks == [] {
      assert seen + Flatten(chunks) == seen;
    } else {
      var next := seen + chunks[0];
      DeltaCompletes(seen, chunks[0]);
      DeltasTelescope(next, chunks[1..]);
      ConcatAssoc(seen, chunks[0], Flatten(chunks[1..]));
      ConcatAssoc(Emitted(seen), DeltaOf(seen, chunks[0]), Flatten(DeltasOf(next, chunks[1..])));
      assert DeltasOf(seen, chunks)[1..] == DeltasOf(next, chunks[1..]);
    }
  }

  lemma {:induction false} DeltasDecodeWhole(chunks: seq<string>)
    ensures Flatten(DeltasOf("", chunks)) == Emitted(Flatten(chunks))
  {
    DeltasTelescope("", chunks);
    assert Emitted("") == "";
    NothingBefore(Flatten(chunks));
    NothingBefore(Flatten(DeltasOf("", chunks)));
  }

  lemma {:induction false} NothingBefore(s: string)
    ensures "" + s == s
  {
  }

  lemma {:induction false} DeltaCompletes(seen: string, text: string)
    ensures Emitted(seen) + DeltaOf(seen, text) == Emitted(seen + text)
  {
    EmittedGrows(seen, text);
  }

  // ---- One decoding step of the program ----------------------------------------------------

  datatype CharStep =
    | Emit(c: char, advance: nat, pending: bool)
    | Skip(advance: nat, pending: bool)
    | Closed(advance: nat)
    | NeedMore

  function ConsumeMessageChar(rest: string, pendingEscape: bool): CharStep {
    if rest == "" then NeedMore
    else if pendingEscape then
      if rest[0] == 'u' then Emit('\\', 0, false) else Emit(Unescape(rest[0]), 1, false)
    else if rest[0] == '\\' then
      if |rest| == 1 then Skip(1, true)
      else if rest[1] == 'u' then Emit('\\', 1, false)
      else Emit(Unescape(rest[1]), 2, false)
    else if rest[0] == '"' then Closed(1)
    else Emit(rest[0], 1, false)
  }

  function Mode(pendingEscape: bool): DecoderState {
    if pendingEscape then Escaped else Plain
  }

  // A step is faithful when it leaves the automaton exactly the work it has not done itself. Only the
  // step before the u of a split \u consumes nothing, and it clears the pending escape.
  ghost predicate Faithful(step: CharStep, rest: string, pendingEscape: bool) {
    var whole := Decode(Mode(pendingEscape), rest);
    match step
    case Emit(c, n, pending) =>
      && n <= |rest| && (n > 0 || (pendingEscape && !pending))
      && whole == Decoded(Decode(Mode(pending), rest[n..]).state, [c] + Decode(Mode(pending), rest[n..]).text)
    case Skip(n, pending) => 0 < n <= |rest| && whole == Decode(Mode(pending), rest[n..])
    case Closed(n) => 0 < n <= |rest| && whole == Decoded(Finished, "")
    case NeedMore => false
  }

  // Every step is faithful, and the scanning loop never meets NeedMore.
  lemma {:induction false} StepIsFaithful(rest: string, pendingEscape: bool)
    requires rest != ""
    ensures Faithful(ConsumeMessageChar(rest, pendingEscape), rest, pendingEscape)
  {
    if !pendingEscape && rest[0] == '\\' && |rest| > 1 {
      assert rest[1..][1..] == rest[2..];
      if rest[1] == 'u' {
        assert Decode(Escaped, rest[1..]).text == "\\u" + Decode(Plain, rest[2..]).text;
        assert Decode(Plain, rest[1..]).text == "u" + Decode(Plain, rest[2..]).text;
      }
    }
    if pendingEscape && rest[0] == 'u' {
      assert rest[0..] == rest;
    }
    if !pendingEscape && rest[0] == '"' {
      FinishedStays(rest[1..]);
    }
  }

  lemma {:induction false} FinishedStays(s: string)
    ensures Decode(Finished, s) == Decoded(Finished, "")
  {
    if s != "" {
      FinishedStays(s[1..]);
    }
  }

  // What the message value in w decodes to, when w has one.
  function Whole(w: string): Option<Decoded> {
    match ValueStart(KEY, w, 0)
    case None => None
    case Some(p) => Some(Decode(Plain, w[p..]))
  }

  // In the middle of scanning w the parser is in `st` and has emitted `out`: of the whole there remains
  // what the automaton makes of the text from the scan position on.
  ghost predicate Scanning(whole: Option<Decoded>, w: string, st: Snapshot, out: string) {
    && st.scanPos <= |w|
    && match st.state
       case Seeking => st == Snapshot(Seeking, false, 0) && out == ""
       case Inside =>
         var more := Decode(Mode(st.pendingEscape), w[st.scanPos..]);
         whole == Some(Decoded(more.state, out + more.text))
       case AfterClose => !st.pendingEscape && whole == Some(Decoded(Finished, out))
  }

  lemma {:induction false} ScanningResumes(seen: string, text: string)
    ensures Scanning(Whole(seen + text), seen + text, After(seen), Emitted(seen))
  {
    EmittedGrows(seen, text);
    if ValueStart(KEY, seen, 0).Some? {
      ResumesInside(seen, text, Decode(Plain, seen[ValueStart(KEY, seen, 0).value..]));
    }
  }

  lemma {:induction false} ResumesInside(seen: string, text: string, d: Decoded)
    ensures var more := Decode(d.state, text);
            Scanning(Some(Decoded(more.state, d.text + more.text)), seen + text, SnapshotAt(d.state, |seen|), d.text)
  {
    assert (seen + text)[|seen|..] == text;
    if d.state == Finished {
      FinishedStays(text);
      assert d.text + "" == d.text;
    }
  }

  lemma {:induction false} ScanningCompletes(w: string, st: Snapshot, out: string)
    requires Scanning(Whole(w), w, st, out)
    requires if st.state == Seeking then ValueStart(KEY, w, 0).None? else st.scanPos == |w|
    ensures st == After(w) && out == Emitted(w)
  {
    if st.state == Inside {
      assert w[st.scanPos..] == "";
      assert Whole(w) == Some(Decoded(Mode(st.pendingEscape), out + ""));
      assert out + "" == out;
    }
  }

  lemma {:induction false} ScanningOpens(w: string, pos: nat)
    requires ValueStart(KEY, w, 0) == Some(pos)
    ensures Scanning(Whole(w), w, Snapshot(Inside, false, pos), "")
  {
    assert "" + Decode(Plain, w[pos..]).text == Decode(Plain, w[pos..]).text;
  }

  // The snapshot and the output after one step inside the message.
  function Stepped(st: Snapshot, step: CharStep): Snapshot {
    match step
    case Emit(_, n, pending) => Snapshot(Inside, pending, st.scanPos + n)
    case Skip(n, pending) => Snapshot(Inside, pending, st.scanPos + n)
    case Closed(n) => Snapshot(AfterClose, false, st.scanPos + n)
    case NeedMore => st
  }

  function Output(step: CharStep): string {
    if step.Emit? then [step.c] else ""
  }

  lemma {:induction false} ScanningSteps(whole: Option<Decoded>, w: string, st: Snapshot, out: string)
    requires Scanning(whole, w, st, out) && st.state == Inside && st.scanPos < |w|
    ensures var step := ConsumeMessageChar(w[st.scanPos..], st.pendingEscape);
            var next := Stepped(st, step);
            && !step.NeedMore? && Scanning(whole, w, next, out + Output(step))
            && (st.scanPos < next.scanPos || (st.scanPos == next.scanPos && st.pendingEscape && !next.pendingEscape))
  {
    var rest := w[st.scanPos..];
    StepIsFaithful(rest, st.pendingEscape);
    match ConsumeMessageChar(rest, st.pendingEscape)
    case Emit(c, n, pending) =>
      assert rest[n..] == w[st.scanPos + n..];
      ConcatAssoc(out, [c], Decode(Mode(pending), rest[n..]).text);
    case Skip(n, pending) =>
      assert rest[n..] == w[st.scanPos + n..];
      assert out + "" == out;
    case Closed(n) =>
      assert out + "" == out;
  }

  // ---- The final parse ---------------------------------------------------------------------

  datatype AssetType = Stock | Crypto

  datatype Asset = Asset(symbol: string, assetType: AssetType)

  datatype AssetJson = AssetJson(symbol: string, assetType: string)

  datatype MergedResponse = MergedResponse(message: string, assets: seq<AssetJson>, suggestions: seq<string>)

  function AssetTypeFromRaw(raw: string): Option<AssetType> {
    var t := Lower(Trim(raw));
    if t in {"stock", "equity", "stocks"} then Some(Stock)
    else if t in {"crypto", "cryptocurrency", "cryptos"} then Some(Crypto)
    else None
  }

  // Entries with a blank symbol or an unknown type are dropped.
  function IntoDomain(assets: seq<AssetJson>): seq<Asset> {
    if assets == [] then [] else
      var a := assets[0];
      var kept := match AssetTypeFromRaw(a.assetType)
                  case Some(t) => if Trim(a.symbol) == "" then [] else [Asset(Trim(a.symbol), t)]
                  case None => [];
      kept + IntoDomain(assets[1..])
  }

  // The one-shot parse; `parse` stands for serde_json::from_str.
  function ParseMergedResponse(raw: string, parse: string -> Option<MergedResponse>)
    : (string, seq<Asset>, seq<string>)
  {
    match parse(raw)
    case Some(m) => (m.message, IntoDomain(m.assets), m.suggestions)
    case None => (raw, [], [])
  }

  // What is kept of one entry.
  lemma {:induction false} EntryIsKept(a: AssetJson)
    ensures var name, symbol := Lower(Trim(a.assetType)), Trim(a.symbol);
            IntoDomain([a]) ==
              if symbol != "" && name in {"stock", "equity", "stocks"} then [Asset(symbol, Stock)]
              else if symbol != "" && name in {"crypto", "cryptocurrency", "cryptos"} then [Asset(symbol, Crypto)]
              else []
  {
    assert [a][1..] == [] && IntoDomain([]) == [];
  }

  lemma {:induction false} EntryFirst(a: AssetJson, rest: seq<AssetJson>)
    ensures IntoDomain([a] + rest) == IntoDomain([a]) + IntoDomain(rest)
  {
    assert [a][1..] == [] && ([a] + rest)[1..] == rest;
  }

  // The entries are treated one by one, and their order stays.
  lemma {:induction false} EntriesKeepOrder(a: seq<AssetJson>, b: seq<AssetJson>)
    ensures IntoDomain(a + b) == IntoDomain(a) + IntoDomain(b)
  {
    if a == [] {
      assert a + b == b;
    } else {
      var first, rest := a[0], a[1..];
      assert a == [first] + rest && a + b == [first] + (rest + b);
      EntryFirst(first, rest);
      EntryFirst(first, rest + b);
      EntriesKeepOrder(rest, b);
      ConcatAssoc(IntoDomain([first]), IntoDomain(rest), IntoDomain(b));
    }
  }

  // ---- The parser --------------------------------------------------------------------------

  class MergedJsonStreamParser {
    var buffer: string
    var state: ParseState
    var pendingEscape: bool
    var scanPos: nat

    ghost predicate Valid()
      reads this
    {
      Snapshot(state, pendingEscape, scanPos) == After(buffer)
    }

    constructor ()
      ensures Valid() && buffer == ""
    {
      buffer, state, pendingEscape, scanPos := "", Seeking, false, 0;
    }

    // One turn of the loop inside the message.
    method DecodeOne() returns (piece: string)
      requires state == Inside && scanPos < |buffer|
      modifies this
      ensures buffer == old(buffer)
      ensures var step := ConsumeMessageChar(buffer[old(scanPos)..], old(pendingEscape));
              && piece == Output(step)
              && Snapshot(state, pendingEscape, scanPos) == Stepped(old(Snapshot(state, pendingEscape, scanPos)), step)
    {
      piece := "";
      match ConsumeMessageChar(buffer[scanPos..], pendingEscape) {
        case Emit(c, advance, pending) =>
          piece := [c];
          scanPos := scanPos + advance;
          pendingEscape := pending;
        case Skip(advance, pending) =>
          scanPos := scanPos + advance;
          pendingEscape := pending;
        case Closed(advance) =>
          scanPos := scanPos + advance;
          state := AfterClose;
          pendingEscape := false;
        case NeedMore =>
      }
    }

    method Push(text: string) returns (delta: string, terminal: bool)
      requires Valid()
      modifies this
      ensures Valid() && buffer == old(buffer) + text
      ensures Emitted(buffer) == Emitted(old(buffer)) + delta
      ensures !terminal
    {
      ghost var before, w := Emitted(buffer), buffer + text;
      ghost var whole := Whole(w);
      ScanningResumes(buffer, text);
      delta, terminal := "", false;
      if text == "" {
        assert w == buffer;
        return;
      }
      buffer := buffer + text;
      assert before + delta == before;
      while scanPos < |buffer|
        invariant buffer == w
        invariant Scanning(whole, w, Snapshot(state, pendingEscape, scanPos), before + delta)
        decreases |w| - scanPos, pendingEscape
      {
        match state {
          case Seeking =>
            var found := FindMessageValueStart(buffer, scanPos);
            match found {
              case Some(pos) =>
                ScanningOpens(w, pos);
                scanPos := pos;
                state := Inside;
              case None =>
                break;
            }
          case Inside =>
            ScanningSteps(whole, w, Snapshot(state, pendingEscape, scanPos), before + delta);
            var piece := DecodeOne();
            ConcatAssoc(before, delta, piece);
            delta := delta + piece;
          case AfterClose =>
            scanPos := |buffer|;
        }
      }
      ScanningCompletes(w, Snapshot(state, pendingEscape, scanPos), before + delta);
    }

    method Finalize(parse: string -> Option<MergedResponse>) returns (assets: seq<Asset>, suggestions: seq<string>)
      requires Valid()
      ensures (assets, suggestions) == FinalOf(buffer, parse)
    {
      if Trim(buffer) == "" {
        return [], [];
      }
      match parse(buffer) {
        case Some(parsed) => return IntoDomain(parsed.assets), parsed.suggestions;
        case None => return [], [];
      }
    }
  }

  function FinalOf(w: string, parse: string -> Option<MergedResponse>): (seq<Asset>, seq<string>) {
    if IsBlank(w) || parse(w).None? then ([], []) else (IntoDomain(parse(w).value.assets), parse(w).value.suggestions)
  }
}
