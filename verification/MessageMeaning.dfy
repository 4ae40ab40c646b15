// What the streamed deltas mean: the tokens of the message string, and the JSON string.

module MessageMeaning {
  import opened Text
  import opened JsonStrings
  import opened KeySearch
  import opened MessageStream

  // ---- Tokens: nothing of the message is lost ---------------------------------------------

  // A plain character, or a backslash with the character after it.
  datatype Token = Lit(c: char) | Esc(c: char)

  predicate Lits(ts: seq<Token>) {
    forall t :: t in ts && t.Lit? ==> t.c != '"' && t.c != '\\'
  }

  function TokenText(t: Token): string {
    if t.Lit? then [t.c] else ['\\', t.c]
  }

  function TokenMeaning(t: Token): string {
    if t.Lit? then [t.c] else if t.c == 'u' then "\\u" else [Unescape(t.c)]
  }

  function TokensText(ts: seq<Token>): string {
    if ts == [] then "" else TokenText(ts[0]) + TokensText(ts[1..])
  }

  function TokensMeaning(ts: seq<Token>): string {
    if ts == [] then "" else TokenMeaning(ts[0]) + TokensMeaning(ts[1..])
  }

  // How far a message string has been read: all of it, up to a last backslash, or beyond its end.
  ghost predicate ReadUpTo(s: string, ts: seq<Token>, end: DecoderState, rest: string) {
    && Lits(ts) && s == TokensText(ts) + rest
    && match end
       case Plain => rest == ""
       case Escaped => rest == "\\"
       case Finished => rest != "" && rest[0] == '"'
  }

  lemma {:induction false} DecodeToken(t: Token)
    requires Lits([t])
    ensures Decode(Plain, TokenText(t)) == Decoded(Plain, TokenMeaning(t))
  {
    assert t in [t];
    if t.Esc? {
      assert ['\\', t.c][1..] == [t.c] && [t.c][1..] == "";
      assert Decode(Escaped, [t.c]) == Decoded(Plain, TokenMeaning(t) + "");
    }
  }

  // The emitted text is the meaning of every token received; only a last backslash is held back.
  lemma {:induction false} DecodeReadsTokens(s: string) returns (ts: seq<Token>, rest: string)
    ensures ReadUpTo(s, ts, Decode(Plain, s).state, rest)
    ensures Decode(Plain, s).text == TokensMeaning(ts)
    decreases |s|
  {
    if s == "" || s[0] == '"' || (s[0] == '\\' && |s| == 1) {
      ts, rest := [], s;
      if s != "" && s[0] == '"' {
        FinishedStays(s[1..]);
        assert Decode(Plain, s) == Decoded(Finished, "");
      } else if s != "" {
        assert s[1..] == "";
        assert Decode(Plain, s) == Decoded(Escaped, "");
      }
    } else {
      var t := if s[0] == '\\' then Esc(s[1]) else Lit(s[0]);
      var n := |TokenText(t)|;
      ts, rest := DecodeReadsTokens(s[n..]);
      assert s == TokenText(t) + s[n..];
      DecodeToken(t);
      DecodeAppend(Plain, TokenText(t), s[n..]);
      ReadOneMore(t, s[n..], ts, Decode(Plain, s).state, rest);
      ts := [t] + ts;
    }
  }

  lemma {:induction false} ReadOneMore(t: Token, s: string, ts: seq<Token>, end: DecoderState, rest: string)
    requires Lits([t]) && ReadUpTo(s, ts, end, rest)
    ensures ReadUpTo(TokenText(t) + s, [t] + ts, end, rest)
    ensures TokensMeaning([t] + ts) == TokenMeaning(t) + TokensMeaning(ts)
  {
    assert t in [t];
    assert ([t] + ts)[1..] == ts;
    ConcatAssoc(TokenText(t), TokensText(ts), rest);
  }

  // After every push: the emitted text is what the received part of the message string says, but for
  // one backslash that waits for its partner.
  lemma {:induction false} EmittedIsReceived(w: string) returns (ts: seq<Token>, rest: string)
    requires ValueStart(KEY, w, 0).Some?
    ensures w[ValueStart(KEY, w, 0).value..] == TokensText(ts) + rest && Lits(ts)
    ensures Emitted(w) == TokensMeaning(ts)
    ensures match After(w).state
            case Seeking => false
            case Inside => rest == if After(w).pendingEscape then "\\" else ""
            case AfterClose => rest != "" && rest[0] == '"'
  {
    ts, rest := DecodeReadsTokens(w[ValueStart(KEY, w, 0).value..]);
  }

  // ---- JSON: what the deltas say is what the message says, unless it has \u escapes ---------

  predicate IsUnicodeEscape(u: Unit) {
    u.Hex? || u.Pair?
  }

  // Escapes \uXXXX stay as they are written.
  function StreamedUnit(u: Unit): string {
    match u
    case Raw(c) => [c]
    case Short(e) => [Unescape(e)]
    case _ => PrintUnit(u)
  }

  function Streamed(us: seq<Unit>): string {
    if us == [] then "" else StreamedUnit(us[0]) + Streamed(us[1..])
  }

  lemma {:induction false} DecodeLiteral(s: string)
    requires forall k :: 0 <= k < |s| ==> s[k] != '"' && s[k] != '\\'
    ensures Decode(Plain, s) == Decoded(Plain, s)
  {
    if s != "" {
      DecodeLiteral(s[1..]);
      assert s == [s[0]] + s[1..];
    }
  }

  lemma {:induction false} DecodeQuad(h: string)
    requires IsQuad(h)
    ensures Decode(Plain, "\\u" + h) == Decoded(Plain, "\\u" + h)
  {
    DecodeLiteral(h);
    DecodeAppend(Plain, "\\u", h);
    assert "\\u"[1..][1..] == "";
    assert Decode(Escaped, "\\u"[1..]) == Decoded(Plain, "\\u" + "");
    assert Decode(Plain, "\\u") == Decoded(Plain, "\\u");
  }

  lemma {:induction false} DecodeShort(e: char)
    requires e != 'u'
    ensures Decode(Plain, ['\\', e]) == Decoded(Plain, [Unescape(e)])
  {
    assert ['\\', e][1..] == [e] && [e][1..] == "";
    assert Decode(Escaped, [e]) == Decoded(Plain, [Unescape(e)] + "");
  }

  lemma {:induction false} DecodeUnit(u: Unit)
    requires Valid(u)
    ensures Decode(Plain, PrintUnit(u)) == Decoded(Plain, StreamedUnit(u))
  {
    match u
    case Raw(c) => DecodeLiteral([c]);
    case Short(e) => DecodeShort(e);
    case Hex(h) => DecodeQuad(h);
    case Pair(h, l) =>
      DecodeQuad(h);
      DecodeQuad(l);
      DecodeAppend(Plain, "\\u" + h, "\\u" + l);
      assert PrintUnit(u) == ("\\u" + h) + ("\\u" + l);
  }

  lemma {:induction false} DecodeUnits(us: seq<Unit>, end: string)
    requires AllValid(us) && end != "" && end[0] == '"'
    ensures Decode(Plain, Print(us) + end) == Decoded(Finished, Streamed(us))
  {
    if us == [] {
      assert Print(us) + end == end;
      FinishedStays(end[1..]);
    } else {
      DecodeUnits(us[1..], end);
      ConcatAssoc(PrintUnit(us[0]), Print(us[1..]), end);
      DecodeUnit(us[0]);
      DecodeAppend(Plain, PrintUnit(us[0]), Print(us[1..]) + end);
    }
  }

  // A JSON message string, in whatever chunks it arrives, is streamed as the decoding that leaves \u
  // escapes literal, and the parser ends behind its closing quote.
  lemma {:induction false} MessageIsStreamed(w: string, us: seq<Unit>, tail: string, chunks: seq<string>)
    requires AllValid(us) && ValueStart(KEY, w, 0).Some?
    requires w[ValueStart(KEY, w, 0).value..] == Print(us) + "\"" + tail
    requires Flatten(chunks) == w
    ensures Flatten(DeltasOf("", chunks)) == Streamed(us)
    ensures After(w) == Snapshot(AfterClose, false, |w|)
  {
    DecodeUnits(us, "\"" + tail);
    ConcatAssoc(Print(us), "\"", tail);
    DeltasDecodeWhole(chunks);
  }

  // An answer as JSON text: the opening brace and the message first, white space between the tokens, and
  // no carriage return around the colon.
  datatype Answer = Answer(space: string, space1: string, space2: string, message: seq<Unit>, tail: string)

  ghost predicate IsAnswer(a: Answer) {
    && IsJsonSpace(a.space) && IsJsonSpace(a.space1) && IsJsonSpace(a.space2)
    && '\r' !in a.space1 && '\r' !in a.space2 && AllValid(a.message)
  }

  function AnswerText(a: Answer): string {
    "{" + a.space + "\"message\"" + (a.space1 + ":" + (a.space2 + "\"" + (Print(a.message) + "\"" + a.tail)))
  }

  lemma {:induction false} KeyIsQuoted()
    ensures IsQuotedKey(KEY)
  {
  }

  lemma {:induction false} FoundInAnswer(a: Answer)
    requires IsAnswer(a)
    ensures var w := AnswerText(a);
            && ValueStart(KEY, w, 0).Some?
            && w[ValueStart(KEY, w, 0).value..] == Print(a.message) + "\"" + a.tail
  {
    var before := "{" + a.space;
    assert forall k :: 0 <= k < |a.space| ==> before[k + 1] == a.space[k];
    assert '"' !in before;
    KeyIsQuoted();
    var p := |before| + |KEY| + |a.space1| + |a.space2| + 2;
    FoundInObject(KEY, before, a.space1, a.space2, Print(a.message) + "\"" + a.tail, p);
  }

  // In whatever chunks the answer arrives, its message is streamed.
  lemma {:induction false} AnswerIsStreamed(a: Answer, chunks: seq<string>)
    requires IsAnswer(a) && Flatten(chunks) == AnswerText(a)
    ensures Flatten(DeltasOf("", chunks)) == Streamed(a.message)
    ensures After(AnswerText(a)) == Snapshot(AfterClose, false, |AnswerText(a)|)
  {
    FoundInAnswer(a);
    MessageIsStreamed(AnswerText(a), a.message, a.tail, chunks);
  }

  lemma {:induction false} StreamedIsNoShorter(us: seq<Unit>)
    requires AllValid(us)
    ensures |Streamed(us)| >= |Meaning(us)|
    ensures (exists u :: u in us && IsUnicodeEscape(u)) ==> |Streamed(us)| > |Meaning(us)|
  {
    if us != [] {
      assert Valid(us[0]) && forall u :: u in us ==> u == us[0] || u in us[1..];
      StreamedIsNoShorter(us[1..]);
    }
  }

  // Streaming delivers the message itself exactly when its JSON text has no \u escape.
  lemma {:induction false} StreamedIsMessage(us: seq<Unit>)
    requires AllValid(us)
    ensures Streamed(us) == Meaning(us) <==> forall u :: u in us ==> !IsUnicodeEscape(u)
  {
    if u :| u in us && IsUnicodeEscape(u) {
      StreamedIsNoShorter(us);
    } else if us != [] {
      assert us[0] in us;
      StreamedIsMessage(us[1..]);
    }
  }

  // Control characters that have no short escape.
  predicate NeedsUnicodeEscape(c: char) {
    c < ' ' && c !in {'\U{0008}', '\t', '\n', '\U{000C}', '\r'}
  }

  // Decode undoes encode: a message that serde_json has written streams as itself exactly when none of
  // its characters needs a \u escape.
  lemma {:induction false} WrittenMessageIsStreamed(m: string, w: string, tail: string, chunks: seq<string>)
    requires ValueStart(KEY, w, 0).Some? && Flatten(chunks) == w
    requires w[ValueStart(KEY, w, 0).value..] == Print(SerdeUnits(m)) + "\"" + tail
    ensures Flatten(DeltasOf("", chunks)) == m <==> forall c :: c in m ==> !NeedsUnicodeEscape(c)
  {
    MessageIsStreamed(w, SerdeUnits(m), tail, chunks);
    StreamedIsMessage(SerdeUnits(m));
    EscapesWritten(m);
  }

  lemma {:induction false} EscapesWritten(m: string)
    ensures (exists u :: u in SerdeUnits(m) && IsUnicodeEscape(u)) <==> exists c :: c in m && NeedsUnicodeEscape(c)
  {
    var us := SerdeUnits(m);
    SerdeUnitsAre(m);
    forall k | 0 <= k < |m| ensures IsUnicodeEscape(us[k]) <==> NeedsUnicodeEscape(m[k]) {
      EscapeWritten(m[k]);
    }
    if u :| u in us && IsUnicodeEscape(u) {
      var k :| 0 <= k < |us| && us[k] == u;
      assert m[k] in m && NeedsUnicodeEscape(m[k]);
    }
    if c :| c in m && NeedsUnicodeEscape(c) {
      var k :| 0 <= k < |m| && m[k] == c;
      assert us[k] in us && IsUnicodeEscape(us[k]);
    }
  }

  lemma {:induction false} EscapeWritten(c: char)
    ensures IsUnicodeEscape(SerdeUnit(c)) <==> NeedsUnicodeEscape(c)
  {
  }
}
