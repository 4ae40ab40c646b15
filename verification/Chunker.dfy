// Cutting a document into overlapping windows (crates/kenjaku-ingest/src/chunker.rs). A tokenizer is a
// function to tokens whose concatenation is the text.

module Windowing {
  import opened Numbers

  datatype Window = Window(start: nat, end: nat)

  function Step(size: nat, overlap: nat): (step: nat)
    ensures step > 0 && (overlap < size ==> step == size - overlap) && (overlap >= size ==> step == 1)
  {
    if size > overlap then size - overlap else 1
  }

  // The windows over n items from a start on; the first that reaches the end is the last.
  function WindowsFrom(n: nat, size: nat, step: nat, start: nat): (ws: seq<Window>)
    requires step > 0
    decreases n - start
  {
    if start >= n then [] else
      var end := Min(start + size, n);
      [Window(start, end)] + if end >= n then [] else WindowsFrom(n, size, step, start + step)
  }

  function Windows(n: nat, size: nat, overlap: nat): seq<Window> {
    WindowsFrom(n, size, Step(size, overlap), 0)
  }

  predicate IsWindow(n: nat, size: nat, w: Window) {
    w.start < n && w.end == Min(w.start + size, n)
  }

  // One window after another, the last of them and only that one reaching the end.
  predicate InOrder(n: nat, size: nat, step: nat, ws: seq<Window>) {
    ws != [] && IsWindow(n, size, ws[0]) &&
    if |ws| == 1 then ws[0].end == n
    else ws[0].end < n && ws[1].start == ws[0].start + step && InOrder(n, size, step, ws[1..])
  }

  lemma {:induction false} WindowsAreInOrder(n: nat, size: nat, step: nat, start: nat)
    requires 0 < step <= size && start < n
    ensures var ws := WindowsFrom(n, size, step, start);
            InOrder(n, size, step, ws) && ws[0].start == start
    decreases n - start
  {
    if start + size < n {
      WindowsAreInOrder(n, size, step, start + step);
      assert WindowsFrom(n, size, step, start)[1..] == WindowsFrom(n, size, step, start + step);
    }
  }

  lemma {:induction false} AllAreWindows(n: nat, size: nat, step: nat, start: nat)
    requires step > 0
    ensures forall w :: w in WindowsFrom(n, size, step, start) ==> IsWindow(n, size, w)
    decreases n - start
  {
    if start + size < n {
      AllAreWindows(n, size, step, start + step);
    }
  }

  // ---- Windows of a plain sequence ---------------------------------------------------------

  // What a window adds to the one before it: its items without the first `overlap`.
  function NewPart<T>(s: seq<T>, overlap: nat, w: Window): seq<T> {
    if w.start + overlap <= w.end <= |s| then s[w.start + overlap..w.end] else []
  }

  function NewParts<T>(s: seq<T>, overlap: nat, ws: seq<Window>): seq<T> {
    if ws == [] then [] else NewPart(s, overlap, ws[0]) + NewParts(s, overlap, ws[1..])
  }

  predicate HoldOverlap(n: nat, overlap: nat, ws: seq<Window>) {
    forall w :: w in ws ==> w.start + overlap <= w.end <= n
  }

  lemma {:induction false} WindowsHoldOverlap(n: nat, size: nat, overlap: nat, step: nat, start: nat)
    requires overlap < size && step == size - overlap && start + overlap < n
    ensures HoldOverlap(n, overlap, WindowsFrom(n, size, step, start))
    decreases n - start
  {
    if start + size < n {
      WindowsHoldOverlap(n, size, overlap, step, start + step);
    }
  }

  lemma {:induction false} NewPartsCons<T>(s: seq<T>, overlap: nat, w: Window, rest: seq<Window>)
    ensures NewParts(s, overlap, [w] + rest) == NewPart(s, overlap, w) + NewParts(s, overlap, rest)
  {
    assert ([w] + rest)[1..] == rest;
  }

  lemma {:induction false} WindowsUnfold(n: nat, size: nat, step: nat, start: nat, next: nat)
    requires step > 0 && start < n && next == start + step
    ensures WindowsFrom(n, size, step, start) ==
            if start + size >= n then [Window(start, n)]
            else [Window(start, start + size)] + WindowsFrom(n, size, step, next)
  {
    assert [Window(start, n)] + [] == [Window(start, n)];
  }

  lemma {:induction false} NewPartAtEnd<T>(s: seq<T>, overlap: nat, start: nat)
    requires start + overlap <= |s|
    ensures NewParts(s, overlap, [Window(start, |s|)]) == s[start + overlap..]
  {
    NewPartsCons(s, overlap, Window(start, |s|), []);
    assert [Window(start, |s|)] + [] == [Window(start, |s|)];
    assert s[start + overlap..|s|] + [] == s[start + overlap..];
  }

  lemma {:induction false} Rejoin<T>(s: seq<T>, from: nat, mid: nat)
    requires from <= mid <= |s|
    ensures s[from..] == s[from..mid] + s[mid..]
  {
  }

  lemma {:induction false} NewPartsReconstruct<T>(s: seq<T>, size: nat, overlap: nat, step: nat, start: nat)
    requires overlap < size && step == size - overlap && start + overlap < |s|
    ensures NewParts(s, overlap, WindowsFrom(|s|, size, step, start)) == s[start + overlap..]
    decreases |s| - start
  {
    var next, end, from := start + step, start + size, start + overlap;
    WindowsUnfold(|s|, size, step, start, next);
    if end < |s| {
      assert next + overlap == end;
      NewPartsReconstruct(s, size, overlap, step, next);
      NewPartsCons(s, overlap, Window(start, end), WindowsFrom(|s|, size, step, next));
      Rejoin(s, from, end);
    } else {
      NewPartAtEnd(s, overlap, start);
    }
  }

  // The windows, each after the first without its overlap, concatenate to the sequence.
  lemma {:induction false} WindowsReconstruct<T>(s: seq<T>, size: nat, overlap: nat, ws: seq<Window>)
    requires overlap < size < |s| && ws == Windows(|s|, size, overlap)
    ensures ws != [] && ws[0] == Window(0, size) && HoldOverlap(|s|, overlap, ws[1..])
    ensures s[..size] + NewParts(s, overlap, ws[1..]) == s
  {
    var step := size - overlap;
    FirstWindow(|s|, size, overlap, step, ws);
    WindowsHoldOverlap(|s|, size, overlap, step, step);
    RestReconstructs(s, size, overlap, step, ws[1..]);
  }

  lemma {:induction false} FirstWindow(n: nat, size: nat, overlap: nat, step: nat, ws: seq<Window>)
    requires overlap < size < n && step == size - overlap && ws == Windows(n, size, overlap)
    ensures ws != [] && ws[0] == Window(0, size) && ws[1..] == WindowsFrom(n, size, step, step)
  {
    WindowsUnfold(n, size, step, 0, step);
  }

  lemma {:induction false} RestReconstructs<T>(s: seq<T>, size: nat, overlap: nat, step: nat, rest: seq<Window>)
    requires overlap < size < |s| && step == size - overlap && rest == WindowsFrom(|s|, size, step, step)
    ensures s[..size] + NewParts(s, overlap, rest) == s
  {
    NewPartsReconstruct(s, size, overlap, step, step);
    HeadAndTail(s, size, step + overlap, NewParts(s, overlap, rest));
  }

  lemma {:induction false} HeadAndTail<T>(s: seq<T>, size: nat, from: nat, tail: seq<T>)
    requires from == size <= |s| && tail == s[from..]
    ensures s[..size] + tail == s
  {
  }

  // Their number is 1 + the quotient of n - size by the step, rounded up.
  lemma {:induction false} WindowCount(n: nat, size: nat, step: nat, start: nat)
    requires 0 < step <= size && start + size < n
    ensures var k := |WindowsFrom(n, size, step, start)|;
            (k - 2) * step < n - start - size <= (k - 1) * step
    decreases n - start
  {
    var next := WindowsFrom(n, size, step, start + step);
    if start + step + size < n {
      WindowCount(n, size, step, start + step);
      assert (|next| - 1) * step == (|next| - 2) * step + step;
    }
  }
}

module Chunker {
  import opened Wrappers
  import opened Numbers
  import opened Text
  import opened Windowing

  // ---- The cut at a sentence end -----------------------------------------------------------

  predicate IsSentenceEnd(c: char) {
    c == '.' || c == '\n' || c == '!' || c == '?'
  }

  // The length of a character in UTF-8.
  function CharBytes(c: char): nat {
    if c as int < 0x80 then 1 else if c as int < 0x800 then 2 else if c as int < 0x10000 then 3 else 4
  }

  function ByteLen(s: string): nat {
    if s == "" then 0 else CharBytes(s[0]) + ByteLen(s[1..])
  }

  // The table of RFC 3629, section 3.
  lemma {:induction false} Utf8Lengths(c: char)
    ensures 0 <= c as int <= 127 ==> CharBytes(c) == 1
    ensures 128 <= c as int <= 2047 ==> CharBytes(c) == 2
    ensures 2048 <= c as int <= 65535 ==> CharBytes(c) == 3
    ensures 65536 <= c as int ==> CharBytes(c) == 4
  {
  }

  // A position in characters, computed from the length in bytes.
  function MinKeep(s: string): nat {
    ByteLen(s) * 85 / 100
  }

  // A sentence ends at i, and that is not before `keep`.
  predicate LateEnd(s: string, keep: nat, i: int) {
    keep <= i < |s| && IsSentenceEnd(s[i])
  }

  ghost predicate HasLateEnd(s: string, keep: nat) {
    exists i :: LateEnd(s, keep, i)
  }

  // r is behind the last late sentence end of s; without one, r is the end of s.
  ghost predicate IsCutAt(s: string, keep: nat, r: nat) {
    && r <= |s|
    && (forall i :: r <= i < |s| ==> !LateEnd(s, keep, i))
    && (if HasLateEnd(s, keep) then r > 0 && LateEnd(s, keep, r - 1) else r == |s|)
  }

  ghost predicate IsCut(s: string, keep: nat, r: string) {
    r <= s && IsCutAt(s, keep, |r|)
  }

  // There is no other such r.
  lemma {:induction false} CutIsUnique(s: string, keep: nat, r: nat, r': nat)
    requires IsCutAt(s, keep, r) && IsCutAt(s, keep, r')
    ensures r == r'
  {
    if HasLateEnd(s, keep) {
      assert r > r' ==> LateEnd(s, keep, r - 1);
      assert r' > r ==> LateEnd(s, keep, r' - 1);
    }
  }

  function CutBefore(s: string, keep: nat, i: nat): (r: nat)
    requires i <= |s| && forall k :: i <= k < |s| ==> !LateEnd(s, keep, k)
    ensures IsCutAt(s, keep, r)
    decreases i
  {
    if i <= keep then |s|
    else if IsSentenceEnd(s[i - 1]) then assert LateEnd(s, keep, i - 1); i
    else CutBefore(s, keep, i - 1)
  }

  function Adjust(s: string, hasMore: bool): (r: string)
    ensures !hasMore ==> r == s
    ensures hasMore ==> IsCut(s, MinKeep(s), r)
  {
    if hasMore then s[..CutBefore(s, MinKeep(s), |s|)] else s
  }

  method AdjustToSentenceBoundary(text: string, hasMore: bool) returns (r: string)
    ensures r == Adjust(text, hasMore)
  {
    if !hasMore {
      return text;
    }
    var minKeep := MinKeep(text);
    var i: nat := |text|;
    while i > minKeep
      invariant i <= |text| && forall k :: i <= k < |text| ==> !LateEnd(text, minKeep, k)
      invariant CutBefore(text, minKeep, i) == CutBefore(text, minKeep, |text|)
    {
      i := i - 1;
      if IsSentenceEnd(text[i]) {
        return text[..i + 1];
      }
    }
    assert text[..|text|] == text;
    return text;
  }

  // ---- How much can be cut, and what cut was promised ---------------------------------------

  // A sentence ends at i, and more than 85 % of `units` are then behind.
  predicate EndsLate(s: string, units: nat, i: int) {
    0 <= i < |s| && s[i] in {'.', '\n', '!', '?'} && 100 * (i + 1) > 85 * units
  }

  ghost predicate HasEnd(s: string, units: nat) {
    exists i :: EndsLate(s, units, i)
  }

  // r is behind the last such end; without one, r is the end of s.
  ghost predicate BehindLastEnd(s: string, units: nat, r: nat) {
    && r <= |s|
    && (forall i :: r <= i < |s| ==> !EndsLate(s, units, i))
    && (if HasEnd(s, units) then r > 0 && EndsLate(s, units, r - 1) else r == |s|)
  }

  lemma {:induction false} LateEndIs(s: string, units: nat)
    ensures forall i :: LateEnd(s, units * 85 / 100, i) <==> EndsLate(s, units, i)
    ensures HasLateEnd(s, units * 85 / 100) <==> HasEnd(s, units)
  {
    if i :| EndsLate(s, units, i) {
      assert LateEnd(s, units * 85 / 100, i);
    }
    if i :| LateEnd(s, units * 85 / 100, i) {
      assert EndsLate(s, units, i);
    }
  }

  lemma {:induction false} CutIsBehindLastEnd(s: string, units: nat, r: nat)
    requires IsCutAt(s, units * 85 / 100, r)
    ensures BehindLastEnd(s, units, r)
  {
    LateEndIs(s, units);
    assert forall i :: r <= i < |s| ==> !LateEnd(s, units * 85 / 100, i);
    if HasEnd(s, units) {
      assert LateEnd(s, units * 85 / 100, r - 1);
    }
  }

  // A window with another one behind it is cut behind its last sentence end that has more than 85 % of its
  // bytes in front of it, counted in characters; without one, and in the last window, nothing is cut.
  lemma {:induction false} AdjustCutsBehindEnd(s: string)
    ensures Adjust(s, false) == s
    ensures Adjust(s, true) <= s && BehindLastEnd(s, ByteLen(s), |Adjust(s, true)|)
  {
    CutIsBehindLastEnd(s, ByteLen(s), |Adjust(s, true)|);
  }

  // At most the last 15 % of a window, counted in bytes, can be cut off.
  lemma {:induction false} CutIsShort(s: string)
    ensures |Adjust(s, true)| <= |s|
    ensures Adjust(s, true) != s ==> |s| - |Adjust(s, true)| <= |s| - MinKeep(s) - 1
    ensures Adjust(s, true) != s ==> 100 * |Adjust(s, true)| > 85 * ByteLen(s)
  {
    if Adjust(s, true) != s {
      assert LateEnd(s, MinKeep(s), |Adjust(s, true)| - 1);
    }
  }

  // 85 % of a text, both counted in characters.
  function KeepChars(s: string): nat {
    |s| * 85 / 100
  }

  // The cut that the comments describe.
  function PromisedCut(s: string): (r: string)
    ensures IsCut(s, KeepChars(s), r)
  {
    s[..CutBefore(s, KeepChars(s), |s|)]
  }

  lemma {:induction false} BytesPerChar(s: string, n: nat)
    requires forall k :: 0 <= k < |s| ==> CharBytes(s[k]) >= n
    ensures ByteLen(s) >= n * |s|
  {
    if s != "" {
      BytesPerChar(s[1..], n);
      assert n * |s| == n + n * |s[1..]|;
    }
  }

  predicate EndsWithEnd(s: string) {
    s != "" && s[|s| - 1] in {'.', '\n', '!', '?'}
  }

  lemma {:induction false} PromisedCutIsBehindEnd(s: string)
    ensures PromisedCut(s) <= s && BehindLastEnd(s, |s|, |PromisedCut(s)|)
  {
    CutIsBehindLastEnd(s, |s|, |PromisedCut(s)|);
  }

  lemma {:induction false} BytesAreEnough(s: string)
    ensures ByteLen(s) >= |s| && forall i :: EndsLate(s, ByteLen(s), i) ==> EndsLate(s, |s|, i)
  {
    BytesPerChar(s, 1);
  }

  lemma {:induction false} SamePrefix(s: string, a: string, b: string)
    requires a <= s && b <= s
    ensures a == b <==> |a| == |b|
  {
  }

  // The program makes the promised cut exactly when a sentence ends late enough for it, when none ends
  // in the last 15 % of the characters, or when the window ends with one.
  lemma {:induction false} CutIsPromisedCut(s: string)
    ensures Adjust(s, true) == PromisedCut(s) <==> HasEnd(s, ByteLen(s)) || !HasEnd(s, |s|) || EndsWithEnd(s)
  {
    var n, m := |Adjust(s, true)|, |PromisedCut(s)|;
    AdjustCutsBehindEnd(s);
    PromisedCutIsBehindEnd(s);
    SamePrefix(s, Adjust(s, true), PromisedCut(s));
    BytesAreEnough(s);
    if HasEnd(s, ByteLen(s)) {
      assert EndsLate(s, |s|, n - 1);
      assert m > n ==> EndsLate(s, ByteLen(s), m - 1);
    } else if HasEnd(s, |s|) {
      assert EndsWithEnd(s) ==> EndsLate(s, |s|, |s| - 1);
    }
  }

  // For text of one-byte characters the two are the same.
  lemma {:induction false} NarrowTextIsCutAsPromised(s: string)
    requires forall k :: 0 <= k < |s| ==> s[k] as int < 128
    ensures Adjust(s, true) == PromisedCut(s)
  {
    NarrowBytes(s);
    AdjustCutsBehindEnd(s);
    PromisedCutIsBehindEnd(s);
    CutIsPromisedCut(s);
  }

  lemma {:induction false} NarrowBytes(s: string)
    requires forall k :: 0 <= k < |s| ==> s[k] as int < 128
    ensures ByteLen(s) == |s|
  {
    if s != "" {
      NarrowBytes(s[1..]);
    }
  }

  // Text of characters that take two bytes or more is never cut.
  lemma {:induction false} WideTextIsNotCut(s: string)
    requires forall k :: 0 <= k < |s| ==> CharBytes(s[k]) >= 2
    ensures Adjust(s, true) == s
  {
    BytesPerChar(s, 2);
  }

  // A text of ten characters whose promised cut, behind the ninth, is missed.
  lemma {:induction false} PromisedCutIsMissed()
    ensures var s := "\U{e9}\U{e9}\U{e9}\U{e9}\U{e9}\U{e9}\U{e9}\U{e9}.\U{e9}";
            PromisedCut(s) == s[..9] && Adjust(s, true) == s
  {
    var wide := "\U{e9}\U{e9}\U{e9}\U{e9}\U{e9}\U{e9}\U{e9}\U{e9}";
    var s := wide + ".\U{e9}";
    ByteLenAppend(wide, ".\U{e9}");
    BytesPerChar(wide, 2);
    assert ByteLen(s) >= 16 + ByteLen(".\U{e9}");
    assert KeepChars(s) == 8 && MinKeep(s) >= 10;
    assert LateEnd(s, 8, 8);
    assert |PromisedCut(s)| == 9;
  }

  lemma {:induction false} ByteLenAppend(a: string, b: string)
    ensures ByteLen(a + b) == ByteLen(a) + ByteLen(b)
  {
    if a == "" {
      assert a + b == b;
    } else {
      assert (a + b)[1..] == a[1..] + b;
      ByteLenAppend(a[1..], b);
    }
  }

  // ---- Chunks ------------------------------------------------------------------------------

  type Tokenizer = string -> seq<string>

  function WindowText(tokens: seq<string>, w: Window): string {
    if w.start <= w.end <= |tokens| then Flatten(tokens[w.start..w.end]) else ""
  }

  // What a window over tokens keeps of its text.
  function Kept(tokens: seq<string>, w: Window): string {
    Adjust(WindowText(tokens, w), w.end < |tokens|)
  }

  function TokenContent(tokens: seq<string>): Window -> string {
    (w: Window) => Kept(tokens, w)
  }

  function CharContent(chars: string): Window -> string {
    (w: Window) => if w.start <= w.end <= |chars| then chars[w.start..w.end] else ""
  }

  function Emit(text: string): seq<string> {
    if Trim(text) == "" then [] else [Trim(text)]
  }

  function EmitAll(content: Window -> string, ws: seq<Window>): seq<string> {
    if ws == [] then [] else Emit(content(ws[0])) + EmitAll(content, ws[1..])
  }

  function CharChunks(text: string, size: nat, overlap: nat): seq<string> {
    if |text| <= size then [text] else EmitAll(CharContent(text), Windows(|text|, size, overlap))
  }

  function Chunks(text: string, tokenizer: Option<Tokenizer>, size: nat, overlap: nat): seq<string> {
    if IsBlank(text) then []
    else if tokenizer.None? then CharChunks(text, size * 4, overlap * 4)
    else
      var tokens := tokenizer.value(text);
      if |tokens| <= size then [text] else EmitAll(TokenContent(tokens), Windows(|tokens|, size, overlap))
  }

  // With the windows `ws` still to come, the loop has emitted the others of `total`.
  ghost predicate Halfway(content: Window -> string, ws: seq<Window>, chunks: seq<string>, total: seq<string>) {
    chunks + EmitAll(content, ws) == total
  }

  lemma {:induction false} TakeWindow(
    content: Window -> string, ws: seq<Window>, chunks: seq<string>, total: seq<string>, text: string)
    requires ws != [] && content(ws[0]) == text && Halfway(content, ws, chunks, total)
    ensures Halfway(content, ws[1..], chunks + Emit(text), total)
    ensures |ws| == 1 ==> chunks + Emit(text) == total
  {
    ConcatAssoc(chunks, Emit(text), EmitAll(content, ws[1..]));
    assert chunks + Emit(text) + [] == chunks + Emit(text);
  }

  // One turn of a loop over the windows.
  lemma {:induction false} Turn(
    content: Window -> string, n: nat, size: nat, step: nat, start: nat, end: nat, next: nat, text: string,
    ws: seq<Window>, chunks: seq<string>, total: seq<string>) returns (ws': seq<Window>)
    requires step > 0 && start < n && end == Min(start + size, n) && next == start + step
    requires ws == WindowsFrom(n, size, step, start)
    requires content(Window(start, end)) == text && Halfway(content, ws, chunks, total)
    ensures end >= n ==> chunks + Emit(text) == total
    ensures end < n ==> ws' == WindowsFrom(n, size, step, next) && Halfway(content, ws', chunks + Emit(text), total)
  {
    ws' := ws[1..];
    TakeWindow(content, ws, chunks, total, text);
  }

  method ChunkByChars(text: string, chunkSize: nat, overlap: nat) returns (chunks: seq<string>)
    ensures chunks == CharChunks(text, chunkSize, overlap)
  {
    if |text| <= chunkSize {
      return [text];
    }
    var step := Step(chunkSize, overlap);
    ghost var content, total := CharContent(text), CharChunks(text, chunkSize, overlap);
    ghost var ws := Windows(|text|, chunkSize, overlap);
    chunks := [];
    var start := 0;
    assert chunks + total == total;
    while start < |text|
      invariant ws == WindowsFrom(|text|, chunkSize, step, start)
      invariant Halfway(content, ws, chunks, total)
    {
      var end := Min(start + chunkSize, |text|);
      var more := PushTrimmed(chunks, text[start..end]);
      assert content(Window(start, end)) == text[start..end];
      var next := start + step;
      ws := Turn(content, |text|, chunkSize, step, start, end, next, text[start..end], ws, chunks, total);
      chunks := more;
      if end >= |text| {
        return;
      }
      start := next;
    }
    assert chunks + [] == chunks;
  }

  method PushTrimmed(chunks: seq<string>, text: string) returns (more: seq<string>)
    ensures more == chunks + Emit(text)
  {
    var trimmed := Trim(text);
    more := if trimmed != "" then chunks + [trimmed] else chunks;
    assert chunks + [] == chunks;
  }

  method PushWindow(chunks: seq<string>, tokens: seq<string>, start: nat, end: nat) returns (more: seq<string>)
    requires start <= end <= |tokens|
    ensures more == chunks + Emit(Kept(tokens, Window(start, end)))
  {
    var decoded := Flatten(tokens[start..end]);
    var trimmed := AdjustToSentenceBoundary(decoded, end < |tokens|);
    more := PushTrimmed(chunks, trimmed);
  }

  method ChunkText(text: string, tokenizer: Option<Tokenizer>, chunkSize: nat, overlap: nat)
    returns (chunks: seq<string>)
    ensures chunks == Chunks(text, tokenizer, chunkSize, overlap)
  {
    if Trim(text) == "" {
      return [];
    }
    if tokenizer.None? {
      chunks := ChunkByChars(text, chunkSize * 4, overlap * 4);
      return;
    }
    var tokens := tokenizer.value(text);
    if |tokens| <= chunkSize {
      return [text];
    }
    var step := Step(chunkSize, overlap);
    ghost var content, total := TokenContent(tokens), Chunks(text, tokenizer, chunkSize, overlap);
    ghost var ws := Windows(|tokens|, chunkSize, overlap);
    chunks := [];
    var start := 0;
    assert chunks + total == total;
    while start < |tokens|
      invariant ws == WindowsFrom(|tokens|, chunkSize, step, start)
      invariant Halfway(content, ws, chunks, total)
    {
      var end := Min(start + chunkSize, |tokens|);
      var more := PushWindow(chunks, tokens, start, end);
      var next := start + step;
      ghost var kept := Kept(tokens, Window(start, end));
      ws := Turn(content, |tokens|, chunkSize, step, start, end, next, kept, ws, chunks, total);
      chunks := more;
      if end >= |tokens| {
        return;
      }
      start := next;
    }
    assert chunks + [] == chunks;
  }

  // ---- Coverage ----------------------------------------------------------------------------

  // The place in the text where token i begins.
  function Offset(tokens: seq<string>, i: nat): nat {
    if i <= |tokens| then |Flatten(tokens[..i])| else 0
  }

  lemma {:induction false} SliceText(tokens: seq<string>, i: nat, j: nat)
    requires i <= j <= |tokens|
    ensures Offset(tokens, i) <= Offset(tokens, j) <= |Flatten(tokens)|
    ensures Flatten(tokens[i..j]) == Flatten(tokens)[Offset(tokens, i)..Offset(tokens, j)]
  {
    FlattenSplit(tokens[..j], i);
    FlattenSplit(tokens, j);
    assert tokens[..j][..i] == tokens[..i] && tokens[..j][i..] == tokens[i..j];
    MiddleSlice(Flatten(tokens[..i]), Flatten(tokens[i..j]), Flatten(tokens[j..]));
  }

  lemma {:induction false} FlattenSplit(tokens: seq<string>, i: nat)
    requires i <= |tokens|
    ensures Flatten(tokens) == Flatten(tokens[..i]) + Flatten(tokens[i..])
  {
    FlattenAppend(tokens[..i], tokens[i..]);
    assert tokens[..i] + tokens[i..] == tokens;
  }

  lemma {:induction false} MiddleSlice(a: string, b: string, c: string)
    ensures var text := a + b + c; b == text[|a|..|a + b|]
  {
  }

  lemma {:induction false} OffsetOfEnds(tokens: seq<string>)
    ensures Offset(tokens, 0) == 0 && Offset(tokens, |tokens|) == |Flatten(tokens)|
  {
    assert tokens[..0] == [] && tokens[..|tokens|] == tokens;
  }

  function KeptEnd(tokens: seq<string>, w: Window): nat {
    Offset(tokens, w.start) + |Kept(tokens, w)|
  }

  lemma {:induction false} KeptIsPrefix(tokens: seq<string>, w: Window)
    ensures var n := |Kept(tokens, w)|; n <= |WindowText(tokens, w)| && Kept(tokens, w) == WindowText(tokens, w)[..n]
    ensures w.end >= |tokens| ==> |Kept(tokens, w)| == |WindowText(tokens, w)|
  {
  }

  lemma {:induction false} PartIsText(tokens: seq<string>, w: Window, n: nat)
    requires w.start <= w.end <= |tokens| && n <= |WindowText(tokens, w)|
    ensures var o := Offset(tokens, w.start);
            && o + n <= Offset(tokens, w.end) <= |Flatten(tokens)|
            && WindowText(tokens, w)[..n] == Flatten(tokens)[o..o + n]
            && (w.end == |tokens| && n == |WindowText(tokens, w)| ==> o + n == |Flatten(tokens)|)
  {
    var o, e := Offset(tokens, w.start), Offset(tokens, w.end);
    SliceText(tokens, w.start, w.end);
    OffsetOfEnds(tokens);
    SliceOfSlice(Flatten(tokens), o, e, 0, n);
  }

  lemma {:induction false} KeptIsText(tokens: seq<string>, w: Window)
    requires w.start <= w.end <= |tokens|
    ensures KeptEnd(tokens, w) <= Offset(tokens, w.end) <= |Flatten(tokens)|
    ensures Kept(tokens, w) == Flatten(tokens)[Offset(tokens, w.start)..KeptEnd(tokens, w)]
    ensures w.end == |tokens| ==> KeptEnd(tokens, w) == |Flatten(tokens)|
  {
    KeptIsPrefix(tokens, w);
    PartIsText(tokens, w, |Kept(tokens, w)|);
  }

  // The stretch of the text that a window's chunk shows.
  datatype Span = Span(from: nat, to: nat)

  function TrimmedSpan(s: string): (r: Span)
    ensures r.from <= r.to <= |s| && Trim(s) == s[r.from..r.to]
    ensures forall k :: 0 <= k < |s| && !IsWhitespace(s[k]) ==> r.from <= k < r.to
  {
    var a := TrimStartAt(IsWhitespace, s, 0);
    Span(a, TrimEndAt(IsWhitespace, s, a, |s|))
  }

  function SpanOf(tokens: seq<string>, w: Window): Span {
    var r, o := TrimmedSpan(Kept(tokens, w)), Offset(tokens, w.start);
    Span(o + r.from, o + r.to)
  }

  // A chunk is the text of its span.
  lemma {:induction false} ChunkIsSpan(tokens: seq<string>, w: Window)
    requires w.start <= w.end <= |tokens|
    ensures SpanOf(tokens, w).from <= SpanOf(tokens, w).to <= |Flatten(tokens)|
    ensures Trim(Kept(tokens, w)) == Flatten(tokens)[SpanOf(tokens, w).from..SpanOf(tokens, w).to]
  {
    var kept, o := Kept(tokens, w), Offset(tokens, w.start);
    KeptIsText(tokens, w);
    SpanSlice(Flatten(tokens), o, KeptEnd(tokens, w), kept, SpanOf(tokens, w));
  }

  lemma {:induction false} SpanSlice(text: string, o: nat, e: nat, kept: string, s: Span)
    requires o <= e <= |text| && kept == text[o..e]
    requires s == Span(o + TrimmedSpan(kept).from, o + TrimmedSpan(kept).to)
    ensures s.from <= s.to <= e && Trim(kept) == text[s.from..s.to]
  {
    SliceOfSlice(text, o, e, s.from - o, s.to - o);
  }

  // It holds every character but white space that the window keeps.
  lemma {:induction false} SpanHoldsKept(tokens: seq<string>, w: Window, k: nat)
    requires w.start <= w.end <= |tokens| && k < |Flatten(tokens)| && !IsWhitespace(Flatten(tokens)[k])
    ensures var s := SpanOf(tokens, w);
            s.from <= k < s.to <==> Offset(tokens, w.start) <= k < KeptEnd(tokens, w)
  {
    KeptIsText(tokens, w);
    SpanHolds(Flatten(tokens), Offset(tokens, w.start), Kept(tokens, w), k);
  }

  lemma {:induction false} SpanHolds(text: string, o: nat, kept: string, k: nat)
    requires o + |kept| <= |text| && kept == text[o..o + |kept|]
    requires k < |text| && !IsWhitespace(text[k])
    ensures var r := TrimmedSpan(kept); o + r.from <= k < o + r.to <==> o <= k < o + |kept|
  {
    if o <= k < o + |kept| {
      assert kept[k - o] == text[k];
    }
  }

  // Position k of the text is shown by the chunk of some window.
  ghost predicate Shown(tokens: seq<string>, ws: seq<Window>, k: nat) {
    ws != [] && (SpanOf(tokens, ws[0]).from <= k < SpanOf(tokens, ws[0]).to || Shown(tokens, ws[1..], k))
  }

  ghost function ShownBy(tokens: seq<string>, ws: seq<Window>): nat -> bool {
    (k: nat) => Shown(tokens, ws, k)
  }

  // From a place on, every character of the text but white space is covered.
  ghost predicate CoversFrom(text: string, covered: nat -> bool, from: nat) {
    forall k: nat :: from <= k < |text| && !IsWhitespace(text[k]) ==> covered(k)
  }

  ghost predicate ShowsAllFrom(tokens: seq<string>, ws: seq<Window>, from: nat) {
    CoversFrom(Flatten(tokens), ShownBy(tokens, ws), from)
  }

  ghost predicate BlankBetween(text: string, from: nat, to: nat) {
    forall k :: from <= k < to && k < |text| ==> IsWhitespace(text[k])
  }

  // Between the furthest place that the windows so far keep and the next window there is only white space.
  ghost predicate GapsAreBlank(tokens: seq<string>, ws: seq<Window>, reach: nat)
    decreases |ws|
  {
    ws == [] || (
      && BlankBetween(Flatten(tokens), reach, Offset(tokens, ws[0].start))
      && GapsAreBlank(tokens, ws[1..], Max(reach, KeptEnd(tokens, ws[0]))))
  }

  lemma {:induction false} NothingShownBefore(tokens: seq<string>, size: nat, step: nat, ws: seq<Window>, k: nat)
    requires InOrder(|tokens|, size, step, ws) && k < Offset(tokens, ws[0].start)
    ensures !Shown(tokens, ws, k)
  {
    if |ws| > 1 {
      SliceText(tokens, ws[0].start, ws[1].start);
      NothingShownBefore(tokens, size, step, ws[1..], k);
    }
  }

  lemma {:induction false} ShownFirst(tokens: seq<string>, size: nat, step: nat, ws: seq<Window>, k: nat)
    requires InOrder(|tokens|, size, step, ws) && k < |Flatten(tokens)| && !IsWhitespace(Flatten(tokens)[k])
    ensures Shown(tokens, ws, k) <==>
            (Offset(tokens, ws[0].start) <= k < KeptEnd(tokens, ws[0])) || Shown(tokens, ws[1..], k)
    ensures k < Offset(tokens, ws[0].start) ==> !Shown(tokens, ws, k)
  {
    SpanHoldsKept(tokens, ws[0], k);
    if k < Offset(tokens, ws[0].start) {
      NothingShownBefore(tokens, size, step, ws, k);
    }
  }

  // A stretch in front of what is covered by others.
  lemma {:induction false} CoverOneMore(
    text: string, covered: nat -> bool, rest: nat -> bool, start: nat, end: nat, reach: nat, reach': nat)
    requires reach' == Max(reach, end)
    requires forall k: nat :: k < |text| && !IsWhitespace(text[k]) ==>
               (covered(k) <==> start <= k < end || rest(k)) && (k < start ==> !covered(k))
    ensures CoversFrom(text, covered, reach) <==> BlankBetween(text, reach, start) && CoversFrom(text, rest, reach')
  {
  }

  lemma {:induction false} CoverageFrom(tokens: seq<string>, size: nat, step: nat, ws: seq<Window>, reach: nat)
    requires InOrder(|tokens|, size, step, ws)
    ensures ShowsAllFrom(tokens, ws, reach) <==> GapsAreBlank(tokens, ws, reach)
    decreases |ws|
  {
    var rest, text := ws[1..], Flatten(tokens);
    var start, end := Offset(tokens, ws[0].start), KeptEnd(tokens, ws[0]);
    var reach' := Max(reach, end);
    if rest == [] {
      KeptIsText(tokens, ws[0]);
    } else {
      CoverageFrom(tokens, size, step, rest, reach');
    }
    forall k: nat | k < |text| && !IsWhitespace(text[k])
      ensures ShownBy(tokens, ws)(k) <==> start <= k < end || ShownBy(tokens, rest)(k)
      ensures k < start ==> !ShownBy(tokens, ws)(k)
    {
      ShownFirst(tokens, size, step, ws, k);
    }
    CoverOneMore(text, ShownBy(tokens, ws), ShownBy(tokens, rest), start, end, reach, reach');
  }

  // What is shown is in an emitted chunk, at its place.
  lemma {:induction false} ShownIsEmitted(tokens: seq<string>, size: nat, step: nat, ws: seq<Window>, k: nat)
    returns (chunk: string, s: Span)
    requires InOrder(|tokens|, size, step, ws) && Shown(tokens, ws, k)
    ensures chunk in EmitAll(TokenContent(tokens), ws)
    ensures s.from <= k < s.to <= |Flatten(tokens)| && chunk == Flatten(tokens)[s.from..s.to]
  {
    var w := ws[0];
    s := SpanOf(tokens, w);
    if s.from <= k < s.to {
      ChunkIsSpan(tokens, w);
      chunk := Trim(Kept(tokens, w));
      assert chunk in Emit(TokenContent(tokens)(w));
    } else {
      chunk, s := ShownIsEmitted(tokens, size, step, ws[1..], k);
    }
  }

  // Every character but white space is in some chunk exactly when the gaps that the cuts leave are blank.
  lemma {:induction false} CoverageIsNoGap(tokens: seq<string>, size: nat, overlap: nat)
    requires size >= 1 && tokens != []
    ensures var ws := Windows(|tokens|, size, overlap);
            ShowsAllFrom(tokens, ws, 0) <==> GapsAreBlank(tokens, ws, 0)
  {
    WindowsAreInOrder(|tokens|, size, Step(size, overlap), 0);
    CoverageFrom(tokens, size, Step(size, overlap), Windows(|tokens|, size, overlap), 0);
  }

  // The most that can be cut from a window is no longer than the tokens it shares with the next one.
  predicate SharesWithNext(tokens: seq<string>, w: Window, next: nat) {
    |WindowText(tokens, w)| - MinKeep(WindowText(tokens, w)) <= |WindowText(tokens, Window(next, w.end))| + 1
  }

  predicate SharesEnough(tokens: seq<string>, step: nat, ws: seq<Window>) {
    forall w :: w in ws && w.start + step <= w.end < |tokens| ==> SharesWithNext(tokens, w, w.start + step)
  }

  predicate TokensWithin(tokens: seq<string>, least: nat, most: nat) {
    forall k :: 0 <= k < |tokens| ==> least <= |tokens[k]| <= most
  }

  // 15 % of the longest window fit into the shortest overlap.
  predicate LongOverlap(size: nat, overlap: nat, least: nat, most: nat) {
    15 * (size * most) <= 100 * (overlap * least)
  }

  // That is enough when every token has from `least` to `most` characters.
  lemma {:induction false} OverlapSharesEnough(
    tokens: seq<string>, size: nat, overlap: nat, step: nat, least: nat, most: nat, ws: seq<Window>)
    requires overlap < size && step == size - overlap && LongOverlap(size, overlap, least, most)
    requires TokensWithin(tokens, least, most)
    requires forall w :: w in ws ==> IsWindow(|tokens|, size, w)
    ensures SharesEnough(tokens, step, ws)
  {
    forall w | w in ws && w.start + step <= w.end < |tokens| ensures SharesWithNext(tokens, w, w.start + step) {
      WindowShares(tokens, w, w.start + step, size, overlap, least, most);
    }
  }

  lemma {:induction false} WindowShares(
    tokens: seq<string>, w: Window, next: nat, size: nat, overlap: nat, least: nat, most: nat)
    requires LongOverlap(size, overlap, least, most) && TokensWithin(tokens, least, most)
    requires IsWindow(|tokens|, size, w) && w.start <= next <= w.end < |tokens| && next + overlap == w.start + size
    ensures SharesWithNext(tokens, w, next)
  {
    var all, shared := tokens[w.start..w.end], tokens[next..w.end];
    FlattenLength(all, size, least, most);
    FlattenLength(shared, overlap, least, most);
    BytesPerChar(Flatten(all), 1);
    FifteenPercent(|Flatten(all)|, ByteLen(Flatten(all)), size * most, |Flatten(shared)|);
  }

  lemma {:induction false} FifteenPercent(chars: nat, bytes: nat, longest: nat, shared: nat)
    requires chars <= bytes && chars <= longest && 15 * longest <= 100 * shared
    ensures chars - bytes * 85 / 100 <= shared + 1
  {
  }

  lemma {:induction false} FlattenLength(tokens: seq<string>, n: nat, least: nat, most: nat)
    requires n == |tokens| && TokensWithin(tokens, least, most)
    ensures n * least <= |Flatten(tokens)| <= n * most
  {
    if tokens != [] {
      FlattenLength(tokens[1..], n - 1, least, most);
      OneMore(n, least);
      OneMore(n, most);
    }
  }

  lemma {:induction false} OneMore(n: nat, m: nat)
    requires n > 0
    ensures n * m == (n - 1) * m + m
  {
  }

  lemma {:induction false} FittingCutsLeaveNoGap(tokens: seq<string>, size: nat, step: nat, ws: seq<Window>, reach: nat)
    requires 0 < step <= size && InOrder(|tokens|, size, step, ws)
    requires SharesEnough(tokens, step, ws) && Offset(tokens, ws[0].start) <= reach
    ensures GapsAreBlank(tokens, ws, reach)
    decreases |ws|
  {
    var w := ws[0];
    if |ws| > 1 {
      assert w in ws && forall v :: v in ws[1..] ==> v in ws;
      KeptReachesNext(tokens, w, ws[1].start);
      FittingCutsLeaveNoGap(tokens, size, step, ws[1..], Max(reach, KeptEnd(tokens, w)));
    }
  }

  lemma {:induction false} KeptReachesNext(tokens: seq<string>, w: Window, next: nat)
    requires w.start <= next <= w.end <= |tokens|
    requires SharesWithNext(tokens, w, next)
    ensures Offset(tokens, next) <= KeptEnd(tokens, w)
  {
    CutIsShort(WindowText(tokens, w));
    SliceLength(tokens, w.start, w.end);
    SliceLength(tokens, next, w.end);
  }

  lemma {:induction false} SliceLength(tokens: seq<string>, i: nat, j: nat)
    requires i <= j <= |tokens|
    ensures |Flatten(tokens[i..j])| == Offset(tokens, j) - Offset(tokens, i)
  {
    SliceText(tokens, i, j);
  }

  lemma {:induction false} FittingCutsShow(tokens: seq<string>, size: nat, overlap: nat, k: nat)
    returns (chunk: string, s: Span)
    requires size >= 1 && tokens != [] && SharesEnough(tokens, Step(size, overlap), Windows(|tokens|, size, overlap))
    requires k < |Flatten(tokens)| && !IsWhitespace(Flatten(tokens)[k])
    ensures chunk in EmitAll(TokenContent(tokens), Windows(|tokens|, size, overlap))
    ensures s.from <= k < s.to <= |Flatten(tokens)| && chunk == Flatten(tokens)[s.from..s.to]
  {
    var ws, step := Windows(|tokens|, size, overlap), Step(size, overlap);
    WindowsAreInOrder(|tokens|, size, step, 0);
    OffsetOfEnds(tokens);
    FittingCutsLeaveNoGap(tokens, size, step, ws, 0);
    CoverageIsNoGap(tokens, size, overlap);
    assert ShownBy(tokens, ws)(k);
    chunk, s := ShownIsEmitted(tokens, size, step, ws, k);
  }

  // When windows share enough, every character of the text but white space is in some chunk.
  lemma {:induction false} FittingCutsLoseNothing(text: string, tokenizer: Tokenizer, size: nat, overlap: nat, k: nat)
    returns (chunk: string, s: Span)
    requires Flatten(tokenizer(text)) == text && size >= 1
    requires SharesEnough(tokenizer(text), Step(size, overlap), Windows(|tokenizer(text)|, size, overlap))
    requires k < |text| && !IsWhitespace(text[k])
    ensures chunk in Chunks(text, Some(tokenizer), size, overlap)
    ensures s.from <= k < s.to <= |text| && chunk == text[s.from..s.to]
  {
    if |tokenizer(text)| <= size {
      chunk, s := text, Span(0, |text|);
    } else {
      chunk, s := FittingCutsShow(tokenizer(text), size, overlap, k);
    }
  }

  // A condition on the lengths of the tokens alone.
  lemma {:induction false} LongOverlapLosesNothing(
    text: string, tokenizer: Tokenizer, size: nat, overlap: nat, least: nat, most: nat, k: nat)
    returns (chunk: string, s: Span)
    requires Flatten(tokenizer(text)) == text && overlap < size
    requires TokensWithin(tokenizer(text), least, most) && LongOverlap(size, overlap, least, most)
    requires k < |text| && !IsWhitespace(text[k])
    ensures chunk in Chunks(text, Some(tokenizer), size, overlap)
    ensures s.from <= k < s.to <= |text| && chunk == text[s.from..s.to]
  {
    var n := |tokenizer(text)|;
    AllAreWindows(n, size, size - overlap, 0);
    OverlapSharesEnough(tokenizer(text), size, overlap, size - overlap, least, most, Windows(n, size, overlap));
    chunk, s := FittingCutsLoseNothing(text, tokenizer, size, overlap, k);
  }

  // ---- Chunks end at sentence ends ----------------------------------------------------------

  // A chunk that ends at `to` stops at the sentence end before `end`; trimming took off what is between.
  ghost predicate StopsAtEnd(text: string, to: nat, end: nat) {
    to <= end <= |text| && 0 < end && text[end - 1] in {'.', '\n', '!', '?'} && BlankBetween(text, to, end)
  }

  // The characters of a window that are kept.
  function KeptLength(tokens: seq<string>, w: Window): int {
    KeptEnd(tokens, w) - Offset(tokens, w.start)
  }

  lemma {:induction false} SpanStopsAtEnd(tokens: seq<string>, w: Window)
    requires w.start <= w.end < |tokens|
    ensures var s, t := SpanOf(tokens, w), WindowText(tokens, w);
            && KeptLength(tokens, w) >= 0 && BehindLastEnd(t, ByteLen(t), KeptLength(tokens, w))
            && (HasEnd(t, ByteLen(t)) ==> StopsAtEnd(Flatten(tokens), s.to, KeptEnd(tokens, w)))
  {
    KeptIsText(tokens, w);
    SliceLength(tokens, w.start, w.end);
    KeptEndsSentence(tokens, w);
    if HasEnd(WindowText(tokens, w), ByteLen(WindowText(tokens, w))) {
      PartStopsAtEnd(Flatten(tokens), Offset(tokens, w.start), Kept(tokens, w));
    }
  }

  lemma {:induction false} KeptEndsSentence(tokens: seq<string>, w: Window)
    requires w.end < |tokens|
    ensures var t := WindowText(tokens, w);
            && BehindLastEnd(t, ByteLen(t), |Kept(tokens, w)|)
            && (HasEnd(t, ByteLen(t)) ==> EndsWithEnd(Kept(tokens, w)))
  {
    AdjustCutsBehindEnd(WindowText(tokens, w));
  }

  lemma {:induction false} PartStopsAtEnd(text: string, o: nat, part: string)
    requires o + |part| <= |text| && part == text[o..o + |part|] && EndsWithEnd(part)
    ensures StopsAtEnd(text, o + TrimmedSpan(part).to, o + |part|)
  {
    forall k | o + TrimmedSpan(part).to <= k < o + |part| ensures IsWhitespace(text[k]) {
      assert text[k] == part[k - o];
    }
    assert text[o + |part| - 1] == part[|part| - 1];
  }

  lemma {:induction false} EmittedIsKept(content: Window -> string, ws: seq<Window>, chunk: string) returns (w: Window)
    requires chunk in EmitAll(content, ws)
    ensures w in ws && chunk == Trim(content(w))
  {
    if chunk in Emit(content(ws[0])) {
      w := ws[0];
    } else {
      w := EmittedIsKept(content, ws[1..], chunk);
    }
  }

  // A chunk is a stretch of the text from one window. But for the last window, what is kept of it ends
  // behind its last sentence end that is late enough, and the chunk stops there.
  lemma {:induction false} ChunksStopAtEnds(text: string, tokenizer: Tokenizer, size: nat, overlap: nat, chunk: string)
    returns (w: Window)
    requires Flatten(tokenizer(text)) == text && size < |tokenizer(text)| && !IsBlank(text)
    requires chunk in Chunks(text, Some(tokenizer), size, overlap)
    ensures var tokens := tokenizer(text);
            var s, t := SpanOf(tokens, w), WindowText(tokens, w);
            && w in Windows(|tokens|, size, overlap) && s.from <= s.to <= |text| && chunk == text[s.from..s.to]
            && KeptLength(tokens, w) >= 0
            && (w.end == |tokens| ==> KeptLength(tokens, w) == |t|)
            && (w.end < |tokens| ==>
                  && BehindLastEnd(t, ByteLen(t), KeptLength(tokens, w))
                  && (HasEnd(t, ByteLen(t)) ==> StopsAtEnd(text, s.to, KeptEnd(tokens, w))))
  {
    var tokens := tokenizer(text);
    w := EmittedIsKept(TokenContent(tokens), Windows(|tokens|, size, overlap), chunk);
    AllAreWindows(|tokens|, size, Step(size, overlap), 0);
    ChunkIsSpan(tokens, w);
    if w.end < |tokens| {
      SpanStopsAtEnd(tokens, w);
    }
  }

  // ---- Texts without windows, and the fallback ----------------------------------------------

  lemma {:induction false} ShortTextIsOneChunk(text: string, tokenizer: Tokenizer, size: nat, overlap: nat)
    ensures IsBlank(text) ==> Chunks(text, None, size, overlap) == Chunks(text, Some(tokenizer), size, overlap) == []
    ensures !IsBlank(text) && |tokenizer(text)| <= size ==> Chunks(text, Some(tokenizer), size, overlap) == [text]
    ensures !IsBlank(text) && |text| <= size * 4 ==> Chunks(text, None, size, overlap) == [text]
  {
  }

  // Windows start at multiples of the step.
  lemma {:induction false} WindowStarts(n: nat, size: nat, step: nat, start: nat, i: nat)
    requires step > 0 && i < |WindowsFrom(n, size, step, start)|
    ensures WindowsFrom(n, size, step, start)[i].start == start + i * step
    decreases i
  {
    if i > 0 {
      var next := start + step;
      WindowsUnfold(n, size, step, start, next);
      WindowStarts(n, size, step, next, i - 1);
      OneMore(i, step);
    }
  }

  // Without a tokenizer, a long text is cut into windows of four times as many characters. Every chunk is
  // such a window, trimmed, and every character but white space is in one.
  lemma {:induction false} FallbackIsWindows(text: string, size: nat, overlap: nat, chunk: string) returns (w: Window)
    requires |text| > size * 4 && chunk in Chunks(text, None, size, overlap)
    ensures w in Windows(|text|, size * 4, overlap * 4) && w.start <= w.end <= |text|
    ensures chunk == Trim(text[w.start..w.end]) && |chunk| <= size * 4
  {
    w := CharChunkIsWindow(text, size * 4, overlap * 4, chunk);
  }

  lemma {:induction false} CharChunkIsWindow(text: string, size: nat, overlap: nat, chunk: string) returns (w: Window)
    requires |text| > size && chunk in CharChunks(text, size, overlap)
    ensures w in Windows(|text|, size, overlap) && w.start <= w.end <= |text|
    ensures chunk == Trim(text[w.start..w.end]) && |chunk| <= size
  {
    w := EmittedIsKept(CharContent(text), Windows(|text|, size, overlap), chunk);
    AllAreWindows(|text|, size, Step(size, overlap), 0);
    WindowIsShort(text, size, w);
  }

  lemma {:induction false} WindowIsShort(text: string, size: nat, w: Window)
    requires IsWindow(|text|, size, w)
    ensures w.start <= w.end <= |text| && CharContent(text)(w) == text[w.start..w.end]
    ensures |Trim(text[w.start..w.end])| <= size
  {
    TrimIsNoLonger(text[w.start..w.end]);
  }

  lemma {:induction false} TrimIsNoLonger(s: string)
    ensures |Trim(s)| <= |s|
  {
  }

  lemma {:induction false} FallbackLosesNothing(text: string, size: nat, overlap: nat, k: nat)
    returns (chunk: string, s: Span)
    requires size >= 1 && k < |text| && !IsWhitespace(text[k])
    ensures chunk in Chunks(text, None, size, overlap)
    ensures s.from <= k < s.to <= |text| && chunk == text[s.from..s.to]
  {
    chunk, s := CharChunksShow(text, size * 4, overlap * 4, k);
  }

  lemma {:induction false} CharChunksShow(text: string, size: nat, overlap: nat, k: nat)
    returns (chunk: string, s: Span)
    requires size >= 1 && k < |text| && !IsWhitespace(text[k])
    ensures chunk in CharChunks(text, size, overlap)
    ensures s.from <= k < s.to <= |text| && chunk == text[s.from..s.to]
  {
    if |text| <= size {
      chunk, s := text, Span(0, |text|);
    } else {
      WindowsAreInOrder(|text|, size, Step(size, overlap), 0);
      var w := WindowCovers(|text|, size, Step(size, overlap), Windows(|text|, size, overlap), k);
      chunk, s := WindowShows(text, w, k);
      AllAreEmitted(CharContent(text), Windows(|text|, size, overlap), w);
    }
  }

  lemma {:induction false} WindowCovers(n: nat, size: nat, step: nat, ws: seq<Window>, k: nat) returns (w: Window)
    requires 0 < step <= size && InOrder(n, size, step, ws) && ws[0].start <= k < n
    ensures w in ws && w.start <= k < w.end <= n
  {
    w := ws[0];
    if k >= w.end {
      w := WindowCovers(n, size, step, ws[1..], k);
    }
  }

  lemma {:induction false} WindowShows(text: string, w: Window, k: nat) returns (chunk: string, s: Span)
    requires w.start <= k < w.end <= |text| && !IsWhitespace(text[k])
    ensures chunk == Trim(text[w.start..w.end]) && chunk != ""
    ensures s.from <= k < s.to <= |text| && chunk == text[s.from..s.to]
  {
    var part := text[w.start..w.end];
    chunk, s := Trim(part), Span(w.start + TrimmedSpan(part).from, w.start + TrimmedSpan(part).to);
    assert part[k - w.start] == text[k];
    SpanSlice(text, w.start, w.end, part, s);
  }

  lemma {:induction false} AllAreEmitted(content: Window -> string, ws: seq<Window>, w: Window)
    requires w in ws && Trim(content(w)) != ""
    ensures Trim(content(w)) in EmitAll(content, ws)
  {
    if w == ws[0] {
      assert Trim(content(w)) in Emit(content(w));
    } else {
      AllAreEmitted(content, ws[1..], w);
    }
  }
}
