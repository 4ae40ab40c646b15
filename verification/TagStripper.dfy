// Removing noise tags with their content (crates/kenjaku-ingest/src/crawler.rs, strip_tag and
// strip_noise_tags). Letters are folded as for ASCII.

// Cutting stretches out of a sequence: `opens` says where one may start, `end` where it then ends.
module Cutting {
  import opened Wrappers
  import opened Text

  function First(at: nat -> bool, n: nat, from: nat): (r: Option<nat>)
    ensures r.Some? ==> from <= r.value < n && at(r.value)
    decreases (n as int) - (from as int)
  {
    if from >= n then None else if at(from) then Some(from) else First(at, n, from + 1)
  }

  lemma {:induction false} FirstIs(at: nat -> bool, n: nat, from: nat)
    ensures match First(at, n, from)
            case None => forall k: nat :: from <= k < n ==> !at(k)
            case Some(o) => forall k: nat :: from <= k < o ==> !at(k)
    decreases (n as int) - (from as int)
  {
    if from < n && !at(from) {
      FirstIs(at, n, from + 1);
    }
  }

  lemma {:induction false} FirstUnique(at: nat -> bool, n: nat, from: nat, o: nat)
    requires from <= o < n && at(o) && forall k: nat :: from <= k < o ==> !at(k)
    ensures First(at, n, from) == Some(o)
    decreases o - from
  {
    if from < o {
      FirstUnique(at, n, from + 1, o);
    }
  }

  lemma {:induction false} FirstSkips(at: nat -> bool, n: nat, from: nat, to: nat)
    requires from <= to && forall k: nat :: from <= k < to ==> !at(k)
    ensures First(at, n, from) == First(at, n, to)
    decreases (to as int) - (from as int)
  {
    if from < to {
      FirstSkips(at, n, from + 1, to);
    }
  }

  ghost predicate Advances(opens: nat -> bool, end: nat -> nat, n: nat) {
    forall i: nat :: i < n && opens(i) ==> i < end(i) <= n
  }

  // What is left of s from a position on.
  ghost function Kept<T>(opens: nat -> bool, end: nat -> nat, s: seq<T>, from: nat): seq<T>
    requires Advances(opens, end, |s|) && from <= |s|
    decreases |s| - from
  {
    match First(opens, |s|, from)
    case None => s[from..]
    case Some(o) => s[from..o] + Kept(opens, end, s, end(o))
  }

  lemma {:induction false} KeptSkips<T>(opens: nat -> bool, end: nat -> nat, s: seq<T>, from: nat, to: nat)
    requires Advances(opens, end, |s|) && from <= to <= |s|
    requires forall k: nat :: from <= k < to ==> !opens(k)
    ensures Kept(opens, end, s, from) == s[from..to] + Kept(opens, end, s, to)
  {
    FirstSkips(opens, |s|, from, to);
    var r := First(opens, |s|, to);
    if r.Some? {
      assert s[from..r.value] == s[from..to] + s[to..r.value];
      ConcatAssoc(s[from..to], s[to..r.value], Kept(opens, end, s, end(r.value)));
    } else {
      assert s[from..] == s[from..to] + s[to..];
    }
  }

  lemma {:induction false} KeptCuts<T>(opens: nat -> bool, end: nat -> nat, s: seq<T>, from: nat, o: nat)
    requires Advances(opens, end, |s|) && from <= o < |s| && opens(o)
    requires forall k: nat :: from <= k < o ==> !opens(k)
    ensures Kept(opens, end, s, from) == s[from..o] + Kept(opens, end, s, end(o))
  {
    FirstSkips(opens, |s|, from, o);
  }

  // a is b with some elements left out.
  predicate IsSubsequence<T(==)>(a: seq<T>, b: seq<T>)
    decreases |b|
  {
    if b == [] then a == [] else
      (a != [] && a[0] == b[0] && IsSubsequence(a[1..], b[1..])) || IsSubsequence(a, b[1..])
  }

  lemma {:induction false} SubsequenceOfItself<T>(a: seq<T>)
    ensures IsSubsequence(a, a)
  {
    if a != [] {
      SubsequenceOfItself(a[1..]);
    }
  }

  lemma {:induction false} SubsequenceTransitive<T>(a: seq<T>, b: seq<T>, c: seq<T>)
    requires IsSubsequence(a, b) && IsSubsequence(b, c)
    ensures IsSubsequence(a, c)
    decreases |c|
  {
    if c != [] {
      if IsSubsequence(b, c[1..]) {
        SubsequenceTransitive(a, b, c[1..]);
      } else if IsSubsequence(a, b[1..]) {
        SubsequenceTransitive(a, b[1..], c[1..]);
      } else {
        SubsequenceTransitive(a[1..], b[1..], c[1..]);
      }
    }
  }

  lemma {:induction false} SubsequenceExtends<T>(x: seq<T>, y: seq<T>, a: seq<T>, b: seq<T>)
    requires IsSubsequence(a, b)
    ensures IsSubsequence(x + a, x + (y + b))
    decreases |x| + |y|
  {
    if x != [] {
      SubsequenceExtends(x[1..], y, a, b);
      assert (x + a)[1..] == x[1..] + a && (x + (y + b))[1..] == x[1..] + (y + b);
    } else {
      assert x + a == a && x + (y + b) == y + b;
      if y != [] {
        SubsequenceExtends(x, y[1..], a, b);
        assert x + a == a && x + (y[1..] + b) == (y + b)[1..];
      } else {
        assert y + b == b;
      }
    }
  }

  lemma {:induction false} KeptIsSubsequence<T>(opens: nat -> bool, end: nat -> nat, s: seq<T>, from: nat)
    requires Advances(opens, end, |s|) && from <= |s|
    ensures IsSubsequence(Kept(opens, end, s, from), s[from..])
    decreases |s| - from
  {
    var r := First(opens, |s|, from);
    if r.None? {
      SubsequenceOfItself(s[from..]);
    } else {
      var o, n := r.value, end(r.value);
      KeptIsSubsequence(opens, end, s, n);
      SubsequenceExtends(s[from..o], s[o..n], Kept(opens, end, s, n), s[n..]);
      assert s[from..] == s[from..o] + (s[o..n] + s[n..]);
    }
  }
}

module TagStripper {
  import opened Wrappers
  import opened Text
  import opened Cutting

  predicate OccursAt(pat: string, s: string, i: nat) {
    i + |pat| <= |s| && s[i..i + |pat|] == pat
  }

  function Occurs(pat: string, s: string): nat -> bool {
    (i: nat) => OccursAt(pat, s, i)
  }

  // str::find, counted from the start of s.
  function Find(pat: string, s: string, from: nat): Option<nat> {
    First(Occurs(pat, s), |s|, from)
  }

  predicate IsBoundary(c: char) {
    c == ' ' || c == '>' || c == '\t' || c == '\n' || c == '/'
  }

  // A real opening tag: the pattern, then a boundary or the end of the text.
  predicate OpensAt(open: string, s: string, i: nat) {
    OccursAt(open, s, i) && (i + |open| == |s| || IsBoundary(s[i + |open|]))
  }

  datatype Patterns = Patterns(open: string, close: string)

  function PatternsOf(tag: string): Patterns {
    Patterns("<" + tag, "</" + tag + ">")
  }

  // An element that opens at i ends behind its closing tag, or with the text when it is never closed.
  function EndOf(p: Patterns, lower: string, i: nat): nat {
    var close := Find(p.close, lower, i + |p.open|);
    if close.None? then |lower| else close.value + |p.close|
  }

  ghost function Opens(p: Patterns, lower: string): nat -> bool {
    (i: nat) => OpensAt(p.open, lower, i)
  }

  ghost function End(p: Patterns, lower: string): nat -> nat {
    (i: nat) => EndOf(p, lower, i)
  }

  lemma {:induction false} ElementsAdvance(p: Patterns, lower: string)
    requires p.open != ""
    ensures Advances(Opens(p, lower), End(p, lower), |lower|)
  {
  }

  // The text without its elements; `lower` is the text in lower case.
  ghost function Strip(p: Patterns, s: string, lower: string, from: nat): string
    requires p.open != "" && from <= |s| == |lower|
  {
    ElementsAdvance(p, lower);
    Kept(Opens(p, lower), End(p, lower), s, from)
  }

  ghost function Stripped(tag: string, html: string): string {
    Strip(PatternsOf(tag), html, Lower(html), 0)
  }

  // A position without the opening pattern opens nothing.
  lemma {:induction false} NothingOpens(p: Patterns, lower: string, from: nat, to: nat)
    requires forall k: nat :: from <= k < to ==> !Occurs(p.open, lower)(k)
    ensures forall k: nat :: from <= k < to ==> !Opens(p, lower)(k)
  {
    forall k: nat | from <= k < to ensures !Opens(p, lower)(k) {
      assert !Occurs(p.open, lower)(k);
    }
  }

  lemma {:induction false} CutElement(p: Patterns, s: string, lower: string, from: nat, o: nat, kept: string, n: nat)
    requires p.open != "" && from <= o < |s| == |lower|
    requires OpensAt(p.open, lower, o) && forall k: nat :: from <= k < o ==> !Opens(p, lower)(k)
    requires kept == s[from..o] && n == EndOf(p, lower, o)
    ensures n <= |s| && Strip(p, s, lower, from) == kept + Strip(p, s, lower, n)
  {
    ElementsAdvance(p, lower);
    assert Opens(p, lower)(o);
    KeptCuts(Opens(p, lower), End(p, lower), s, from, o);
  }

  lemma {:induction false} SkipText(p: Patterns, s: string, lower: string, from: nat, to: nat)
    requires p.open != "" && from <= to <= |s| == |lower|
    requires forall k: nat :: from <= k < to ==> !Opens(p, lower)(k)
    ensures Strip(p, s, lower, from) == s[from..to] + Strip(p, s, lower, to)
  {
    ElementsAdvance(p, lower);
    KeptSkips(Opens(p, lower), End(p, lower), s, from, to);
  }

  lemma {:induction false} FoundOccurs(p: Patterns, lower: string, from: nat, o: nat)
    requires Find(p.open, lower, from) == Some(o)
    ensures OccursAt(p.open, lower, o) && forall k: nat :: from <= k < o ==> !Opens(p, lower)(k)
  {
    FirstIs(Occurs(p.open, lower), |lower|, from);
    assert Occurs(p.open, lower)(o);
    NothingOpens(p, lower, from, o);
  }

  // The three turns of the loop: no pattern is left, the pattern found is a look-alike, or it opens an
  // element.
  lemma {:induction false} LastTurn(p: Patterns, s: string, lower: string, cursor: nat)
    requires p.open != "" && cursor <= |s| == |lower| && Find(p.open, lower, cursor) == None
    ensures Strip(p, s, lower, cursor) == s[cursor..|s|] + Strip(p, s, lower, |s|)
  {
    FirstIs(Occurs(p.open, lower), |lower|, cursor);
    NothingOpens(p, lower, cursor, |lower|);
    SkipText(p, s, lower, cursor, |s|);
  }

  lemma {:induction false} LookAlikeTurn(p: Patterns, s: string, lower: string, cursor: nat, o: nat)
    requires p.open != "" && cursor <= o < |s| == |lower|
    requires Find(p.open, lower, cursor) == Some(o) && !OpensAt(p.open, lower, o)
    ensures Strip(p, s, lower, cursor) == s[cursor..o + 1] + Strip(p, s, lower, o + 1)
  {
    FoundOccurs(p, lower, cursor, o);
    SkipText(p, s, lower, cursor, o + 1);
  }

  lemma {:induction false} ElementTurn(p: Patterns, s: string, lower: string, cursor: nat, o: nat, n: nat)
    requires p.open != "" && cursor <= o < |s| == |lower|
    requires Find(p.open, lower, cursor) == Some(o) && OpensAt(p.open, lower, o) && n == EndOf(p, lower, o)
    ensures o < n <= |s| && Strip(p, s, lower, cursor) == s[cursor..o] + Strip(p, s, lower, n)
  {
    FoundOccurs(p, lower, cursor, o);
    CutElement(p, s, lower, cursor, o, s[cursor..o], n);
  }

  // One turn of the loop: html[cursor..to] is kept and `next` is the next cursor.
  method NextTurn(p: Patterns, ghost s: string, lower: string, cursor: nat) returns (to: nat, next: nat)
    requires p.open != "" && cursor < |s| == |lower|
    ensures cursor <= to <= |s| && cursor < next <= |s|
    ensures Strip(p, s, lower, cursor) == s[cursor..to] + Strip(p, s, lower, next)
  {
    var found := Find(p.open, lower, cursor);
    if found.None? {
      LastTurn(p, s, lower, cursor);
      return |lower|, |lower|;
    }
    var openStart := found.value;
    FoundOccurs(p, lower, cursor, openStart);
    var afterOpen := openStart + |p.open|;
    if afterOpen < |lower| && !IsBoundary(lower[afterOpen]) {
      LookAlikeTurn(p, s, lower, cursor, openStart);
      return openStart + 1, openStart + 1;
    }
    var closed := Find(p.close, lower, afterOpen);
    to, next := openStart, if closed.None? then |lower| else closed.value + |p.close|;
    ElementTurn(p, s, lower, cursor, to, next);
  }

  method StripTag(html: string, tag: string) returns (out: string)
    ensures out == Stripped(tag, html)
  {
    var p, lower := PatternsOf(tag), Lower(html);
    out := "";
    var cursor := 0;
    while cursor < |html|
      invariant cursor <= |html|
      invariant out + Strip(p, html, lower, cursor) == Strip(p, html, lower, 0)
    {
      var to, next := NextTurn(p, html, lower, cursor);
      ConcatAssoc(out, html[cursor..to], Strip(p, html, lower, next));
      out := out + html[cursor..to];
      cursor := next;
    }
    assert out + "" == out;
  }

  const NOISE_TAGS := [
    "script", "style", "nav", "footer", "header", "aside", "form", "iframe", "noscript", "svg", "template"]

  ghost function StripAll(tags: seq<string>, s: string): string {
    if tags == [] then s else StripAll(tags[1..], Stripped(tags[0], s))
  }

  method StripNoiseTags(html: string) returns (result: string)
    ensures result ==
            StripAll([
                       "script", "style", "nav", "footer", "header", "aside", "form", "iframe", "noscript", "svg",
                       "template"], html)
    ensures IsSubsequence(result, html)
  {
    result := StripTags(NOISE_TAGS, html);
  }

  method StripTags(tags: seq<string>, html: string) returns (result: string)
    ensures result == StripAll(tags, html)
    ensures IsSubsequence(result, html)
  {
    result := html;
    SubsequenceOfItself(html);
    for i := 0 to |tags|
      invariant StripAll(tags[i..], result) == StripAll(tags, html)
      invariant IsSubsequence(result, html)
    {
      assert tags[i..][1..] == tags[i + 1..];
      StrippedIsSubsequence(tags[i], result);
      var stripped := StripTag(result, tags[i]);
      SubsequenceTransitive(stripped, result, html);
      result := stripped;
    }
    assert tags[|tags|..] == [];
  }

  // The stripped text is the given text with some characters left out.
  lemma {:induction false} StrippedIsSubsequence(tag: string, html: string)
    ensures IsSubsequence(Stripped(tag, html), html)
  {
    var p, lower := PatternsOf(tag), Lower(html);
    ElementsAdvance(p, lower);
    KeptIsSubsequence(Opens(p, lower), End(p, lower), html, 0);
    assert html[0..] == html;
  }

  // ---- Stripping inverts embedding -----------------------------------------------------------

  predicate IsTagName(tag: string) {
    tag != "" && forall k :: 0 <= k < |tag| ==> 'a' <= tag[k] <= 'z'
  }

  // The opening pattern has a single '<', at its start.
  predicate IsPatterns(p: Patterns) {
    p.open != "" && p.open[0] == '<' && forall k :: 0 < k < |p.open| ==> p.open[k] != '<'
  }

  // A stretch of text that is kept, then an element that is removed: `head` is the opening pattern,
  // `inner` what follows it up to the closing tag, `tail` the closing tag.
  datatype Piece = Piece(text: string, head: string, inner: string, tail: string)

  // The text, here in lower case, may hold look-alikes of the opening tag; no boundary follows them.
  predicate KeepsText(open: string, text: string) {
    forall k: nat :: OccursAt(open, text, k) && k + |open| < |text| ==> !IsBoundary(text[k + |open|])
  }

  predicate IsPiece(p: Patterns, e: Piece) {
    var block := Lower(e.inner + e.tail);
    && KeepsText(p.open, Lower(e.text)) && Lower(e.head) == p.open && |e.tail| == |p.close|
    && Find(p.close, block, 0) == Some(|e.inner|) && IsBoundary(block[0])
  }

  function Render(es: seq<Piece>, last: string): string {
    if es == [] then last else es[0].text + (es[0].head + (es[0].inner + es[0].tail + Render(es[1..], last)))
  }

  function Texts(es: seq<Piece>, last: string): string {
    if es == [] then last else es[0].text + Texts(es[1..], last)
  }

  // An occurrence that lies within a part of s is one in that part.
  lemma {:induction false} OccursWithin(pat: string, s: string, i: nat, part: string, k: nat)
    requires OccursAt(part, s, i) && i <= k && k + |pat| <= i + |part|
    ensures OccursAt(pat, s, k) <==> OccursAt(pat, part, k - i)
  {
    SliceOfSlice(s, i, i + |part|, k - i, k - i + |pat|);
  }

  // The lower-case text holds a kept text, an opening tag and a block that starts with a boundary.
  lemma {:induction false} PieceOpens(p: Patterns, text: string, block: string, lower: string, from: nat)
    requires IsPatterns(p) && KeepsText(p.open, text)
    requires block != "" && IsBoundary(block[0])
    requires OccursAt(text, lower, from) && OccursAt(p.open, lower, from + |text|)
    requires OccursAt(block, lower, from + |text| + |p.open|)
    ensures OpensAt(p.open, lower, from + |text|)
    ensures forall k: nat :: from <= k < from + |text| ==> !Opens(p, lower)(k)
  {
    var open, o := p.open, from + |text|;
    assert lower[o + |open|] == lower[o + |open|..o + |open| + |block|][0];
    assert lower[o] == lower[o..o + |open|][0] == '<';
    forall k: nat | from <= k < o ensures !Opens(p, lower)(k) {
      if o < k + |open| <= |lower| {
        assert lower[k..k + |open|][o - k] == lower[o];
      } else if k + |open| <= o {
        OccursWithin(open, lower, from, text, k);
        assert k + |open| < o ==> lower[k + |open|] == lower[from..o][k - from + |open|];
      }
    }
  }

  // What is found in a part of s is found in s.
  lemma {:induction false} FindShifts(pat: string, part: string, s: string, i: nat)
    requires OccursAt(part, s, i) && Find(pat, part, 0).Some?
    ensures Find(pat, s, i) == Some(i + Find(pat, part, 0).value)
  {
    var at, o := Occurs(pat, part), Find(pat, part, 0).value;
    FirstIs(at, |part|, 0);
    assert at(o);
    OccursWithin(pat, s, i, part, i + o);
    forall k: nat | i <= k < i + o ensures !Occurs(pat, s)(k) {
      assert !at(k - i);
      OccursWithin(pat, s, i, part, k);
    }
    FirstUnique(Occurs(pat, s), |s|, i, i + o);
  }

  lemma {:induction false} LowerOfPart(s: string, i: nat, part: string)
    requires i + |part| <= |s| && s[i..i + |part|] == part
    ensures OccursAt(Lower(part), Lower(s), i)
  {
    var l := Lower(s)[i..i + |part|];
    forall k | 0 <= k < |part| ensures l[k] == Lower(part)[k] {
      assert part[k] == s[i + k];
    }
    assert l == Lower(part);
  }

  lemma {:induction false} PieceIsElement(p: Patterns, e: Piece, lower: string, from: nat, o: nat, n: nat)
    requires IsPatterns(p) && IsPiece(p, e)
    requires o == from + |e.text| && n == o + |e.head| + |e.inner + e.tail|
    requires OccursAt(Lower(e.text), lower, from) && OccursAt(Lower(e.head), lower, o)
    requires OccursAt(Lower(e.inner + e.tail), lower, o + |e.head|)
    ensures OpensAt(p.open, lower, o)
    ensures forall k: nat :: from <= k < o ==> !Opens(p, lower)(k)
    ensures n == EndOf(p, lower, o)
  {
    var block := Lower(e.inner + e.tail);
    PieceOpens(p, Lower(e.text), block, lower, from);
    assert |e.head| == |Lower(e.head)| == |p.open| && |block| == |e.inner + e.tail|;
    EndShifts(p, block, lower, o, |e.inner|);
  }

  lemma {:induction false} EndShifts(p: Patterns, block: string, lower: string, o: nat, k: nat)
    requires OccursAt(block, lower, o + |p.open|)
    requires Find(p.close, block, 0) == Some(k) && k + |p.close| == |block|
    ensures EndOf(p, lower, o) == o + |p.open| + |block|
  {
    FindShifts(p.close, block, lower, o + |p.open|);
  }

  lemma {:induction false} Parts(
    s: string, from: nat, a: string, b: string, c: string, d: string, i: nat, j: nat, k: nat)
    requires from <= |s| && s[from..] == a + (b + (c + d))
    requires i == from + |a| && j == i + |b| && k == j + |c|
    ensures k <= |s| && s[from..i] == a && s[i..j] == b && s[j..k] == c && s[k..] == d
  {
  }

  lemma {:induction false} PieceParts(p: Patterns, e: Piece, more: string, s: string, lower: string, from: nat)
    returns (o: nat, n: nat)
    requires IsPatterns(p) && IsPiece(p, e) && lower == Lower(s)
    requires from <= |s| && s[from..] == e.text + (e.head + (e.inner + e.tail + more))
    ensures from <= o < n <= |s| && s[from..o] == e.text && s[n..] == more
    ensures OpensAt(p.open, lower, o) && n == EndOf(p, lower, o)
    ensures forall k: nat :: from <= k < o ==> !Opens(p, lower)(k)
  {
    var block := e.inner + e.tail;
    o := from + |e.text|;
    var i := o + |e.head|;
    n := i + |block|;
    assert |e.head| == |Lower(e.head)| > 0;
    Parts(s, from, e.text, e.head, block, more, o, i, n);
    LowerOfPart(s, from, e.text);
    LowerOfPart(s, o, e.head);
    LowerOfPart(s, i, block);
    PieceIsElement(p, e, lower, from, o, n);
  }

  lemma {:induction false} StripPiece(p: Patterns, e: Piece, more: string, s: string, from: nat) returns (n: nat)
    requires IsPatterns(p) && IsPiece(p, e)
    requires from <= |s| && s[from..] == e.text + (e.head + (e.inner + e.tail + more))
    ensures from <= n <= |s| && s[n..] == more
    ensures Strip(p, s, Lower(s), from) == e.text + Strip(p, s, Lower(s), n)
  {
    var lower := Lower(s);
    var o;
    o, n := PieceParts(p, e, more, s, lower, from);
    CutElement(p, s, lower, from, o, e.text, n);
  }

  // Text without opening tags stays as it is.
  lemma {:induction false} NothingToStrip(p: Patterns, s: string, from: nat)
    requires p.open != "" && from <= |s| && forall k: nat :: !OpensAt(p.open, Lower(s[from..]), k)
    ensures Strip(p, s, Lower(s), from) == s[from..]
  {
    var lower, last := Lower(s), Lower(s[from..]);
    LowerOfPart(s, from, s[from..]);
    forall k: nat | from <= k < |s| ensures !Opens(p, lower)(k) {
      if k + |p.open| <= |s| {
        OccursWithin(p.open, lower, from, last, k);
        assert !OpensAt(p.open, last, k - from);
        assert k + |p.open| < |s| ==> lower[k + |p.open|] == last[k - from + |p.open|];
      }
    }
    SkipText(p, s, lower, from, |s|);
    assert s[from..|s|] + s[|s|..] == s[from..];
  }

  // From wherever `end` is the rest of the text, stripping leaves `kept` of it.
  ghost predicate EndsAs(p: Patterns, end: string, kept: string) {
    p.open != "" && forall s: string, n: nat :: n <= |s| && s[n..] == end ==> Strip(p, s, Lower(s), n) == kept
  }

  lemma {:induction false} StripRendered(
    p: Patterns, es: seq<Piece>, end: string, kept: string, s: string, from: nat)
    requires IsPatterns(p) && (forall e :: e in es ==> IsPiece(p, e)) && EndsAs(p, end, kept)
    requires from <= |s| && s[from..] == Render(es, end)
    ensures Strip(p, s, Lower(s), from) == Texts(es, kept)
    decreases |es|
  {
    if es != [] {
      var n := StripPiece(p, es[0], Render(es[1..], end), s, from);
      StripRendered(p, es[1..], end, kept, s, n);
    }
  }

  // Whatever pieces the text is made of, stripping leaves exactly their texts.
  lemma {:induction false} StripPieces(tag: string, es: seq<Piece>, end: string, kept: string)
    requires IsTagName(tag) && (forall e :: e in es ==> IsPiece(PatternsOf(tag), e))
    requires EndsAs(PatternsOf(tag), end, kept)
    ensures Stripped(tag, Render(es, end)) == Texts(es, kept)
  {
    var p, s := PatternsOf(tag), Render(es, end);
    assert forall k :: 0 < k < |p.open| ==> p.open[k] == tag[k - 1];
    assert s[0..] == s;
    StripRendered(p, es, end, kept, s, 0);
  }

  // ---- The same on markup -------------------------------------------------------------------

  // A text, and an element that follows it. The attributes, if there are any, stand behind a separator;
  // the names may be written in any letter case.
  datatype Element = Element(text: string, name: string, attributes: string, body: string, endName: string)

  // Every look-alike of the opening tag in the text goes on with a further letter of a name.
  ghost predicate HoldsNoTag(tag: string, text: string) {
    forall k: nat :: OccursAt("<" + tag, Lower(text), k) && k + |tag| + 1 < |text| ==>
      text[k + |tag| + 1] !in {' ', '\t', '\n', '/', '>'}
  }

  ghost predicate HoldsNoEnd(tag: string, text: string) {
    forall k: nat :: !OccursAt("</" + tag + ">", Lower(text), k)
  }

  ghost predicate IsElement(tag: string, e: Element) {
    && Lower(e.name) == tag && Lower(e.endName) == tag && HoldsNoTag(tag, e.text)
    && (e.attributes != "" ==> e.attributes[0] in {' ', '\t', '\n', '/'})
    && HoldsNoEnd(tag, e.attributes + ">" + e.body)
  }

  function Markup(es: seq<Element>, end: string): string {
    if es == [] then end else
      es[0].text + ("<" + es[0].name)
      + (es[0].attributes + ">" + es[0].body + ("</" + es[0].endName + ">")) + Markup(es[1..], end)
  }

  function ElementTexts(es: seq<Element>, end: string): string {
    if es == [] then end else es[0].text + ElementTexts(es[1..], end)
  }

  function PieceOf(e: Element): Piece {
    Piece(e.text, "<" + e.name, e.attributes + ">" + e.body, "</" + e.endName + ">")
  }

  function PiecesOf(es: seq<Element>): seq<Piece> {
    if es == [] then [] else [PieceOf(es[0])] + PiecesOf(es[1..])
  }

  lemma {:induction false} LowerConcat(a: string, b: string)
    ensures Lower(a + b) == Lower(a) + Lower(b)
  {
    forall k | 0 <= k < |a + b| ensures Lower(a + b)[k] == (Lower(a) + Lower(b))[k] {
    }
  }

  lemma {:induction false} LowerTags(name: string, tag: string)
    requires Lower(name) == tag
    ensures Lower("<" + name) == "<" + tag && Lower("</" + name + ">") == "</" + tag + ">"
  {
    LowerConcat("<", name);
    LowerConcat("</", name);
    LowerConcat("</" + name, ">");
    assert Lower("<") == "<" && Lower("</") == "</" && Lower(">") == ">";
  }

  // A closing pattern has a single '<', so the first one that ends a block is not found earlier.
  lemma {:induction false} FoundAtEnd(close: string, inner: string)
    requires close != "" && close[0] == '<' && (forall k :: 0 < k < |close| ==> close[k] != '<')
    requires forall k: nat :: !OccursAt(close, inner, k)
    ensures Find(close, inner + close, 0) == Some(|inner|)
  {
    var s := inner + close;
    assert OccursAt(close, s, |inner|);
    forall k: nat | k < |inner| ensures !Occurs(close, s)(k) {
      assert !OccursAt(close, inner, k);
      if k + |close| <= |inner| {
        assert inner[k..k + |close|] == s[k..k + |close|];
      } else {
        assert k + |close| <= |s| ==> s[k..k + |close|][|inner| - k] == s[|inner|] == close[0];
      }
    }
    FirstUnique(Occurs(close, s), |s|, 0, |inner|);
  }

  lemma {:induction false} ClosePattern(tag: string)
    requires IsTagName(tag)
    ensures var close := "</" + tag + ">"; close[0] == '<' && forall k :: 0 < k < |close| ==> close[k] != '<'
  {
    var close := "</" + tag + ">";
    assert forall k :: 2 <= k < |tag| + 2 ==> close[k] == tag[k - 2];
  }

  lemma {:induction false} LowerKeepsBoundaries(c: char)
    ensures IsBoundary(c) <==> c in {' ', '\t', '\n', '/', '>'}
    ensures IsBoundary(ToLower(c)) <==> IsBoundary(c)
  {
  }

  lemma {:induction false} NoTagIsKept(tag: string, text: string)
    requires HoldsNoTag(tag, text)
    ensures KeepsText("<" + tag, Lower(text))
  {
    forall k: nat | OccursAt("<" + tag, Lower(text), k) && k + |"<" + tag| < |text|
      ensures !IsBoundary(Lower(text)[k + |"<" + tag|])
    {
      LowerKeepsBoundaries(text[k + |tag| + 1]);
    }
  }

  lemma {:induction false} ElementIsPiece(tag: string, e: Element)
    requires IsTagName(tag) && IsElement(tag, e)
    ensures IsPiece(PatternsOf(tag), PieceOf(e))
  {
    var inner, close := e.attributes + ">" + e.body, "</" + tag + ">";
    LowerTags(e.name, tag);
    LowerTags(e.endName, tag);
    NoTagIsKept(tag, e.text);
    LowerConcat(inner, "</" + e.endName + ">");
    ClosePattern(tag);
    FoundAtEnd(close, Lower(inner));
    assert inner[0] in {' ', '\t', '\n', '/', '>'};
    LowerKeepsBoundaries(inner[0]);
  }

  lemma {:induction false} MarkupIsRendered(es: seq<Element>, end: string, kept: string)
    ensures Markup(es, end) == Render(PiecesOf(es), end) && ElementTexts(es, kept) == Texts(PiecesOf(es), kept)
  {
    if es != [] {
      var e, p := es[0], PieceOf(es[0]);
      MarkupIsRendered(es[1..], end, kept);
      assert PiecesOf(es)[1..] == PiecesOf(es[1..]);
      ConcatAssoc(p.text + p.head, p.inner + p.tail, Markup(es[1..], end));
      ConcatAssoc(p.text, p.head, p.inner + p.tail + Markup(es[1..], end));
    }
  }

  lemma {:induction false} ElementsArePieces(tag: string, es: seq<Element>)
    requires IsTagName(tag) && forall e :: e in es ==> IsElement(tag, e)
    ensures forall p :: p in PiecesOf(es) ==> IsPiece(PatternsOf(tag), p)
  {
    if es != [] {
      assert es[0] in es && forall e :: e in es[1..] ==> e in es;
      ElementIsPiece(tag, es[0]);
      ElementsArePieces(tag, es[1..]);
    }
  }

  // What may stand behind the last element: a text with look-alikes only, and possibly an element that is
  // never closed; that one takes the rest of the text with it.
  datatype Rest = Plain(text: string) | Unclosed(text: string, name: string, more: string)

  ghost predicate IsRest(tag: string, r: Rest) {
    match r
    case Plain(text) => HoldsNoTag(tag, text) && !EndsWithTag(tag, text)
    case Unclosed(text, name, more) =>
      && HoldsNoTag(tag, text) && Lower(name) == tag && HoldsNoEnd(tag, more)
      && (more != "" ==> more[0] in {' ', '\t', '\n', '/', '>'})
  }

  ghost predicate EndsWithTag(tag: string, text: string) {
    |text| > |tag| && OccursAt("<" + tag, Lower(text), |text| - |tag| - 1)
  }

  function RestText(r: Rest): string {
    match r
    case Plain(text) => text
    case Unclosed(text, name, more) => text + ("<" + name + more)
  }

  lemma {:induction false} PlainStays(tag: string, text: string)
    requires IsTagName(tag) && IsRest(tag, Plain(text))
    ensures EndsAs(PatternsOf(tag), text, text)
  {
    var p := PatternsOf(tag);
    NoTagIsKept(tag, text);
    forall s: string, n: nat | n <= |s| && s[n..] == text ensures Strip(p, s, Lower(s), n) == text {
      forall k: nat ensures !OpensAt(p.open, Lower(s[n..]), k) {
        assert k + |p.open| == |text| ==> k == |text| - |tag| - 1;
      }
      NothingToStrip(p, s, n);
    }
  }

  lemma {:induction false} UnclosedParts(
    tag: string, text: string, name: string, more: string, s: string, n: nat, o: nat, i: nat)
    requires n <= |s| && s[n..] == text + ("<" + name + more) && Lower(name) == tag
    requires o == n + |text| && i == o + |tag| + 1
    ensures i <= |s| && s[n..o] == text && s[i..] == more && OccursAt(Lower(text), Lower(s), n)
    ensures OccursAt("<" + tag, Lower(s), o) && OccursAt(Lower(more), Lower(s), i) && |s| == i + |more|
  {
    LowerTags(name, tag);
    var head := "<" + name;
    assert s[n..] == text + (head + (more + ""));
    Parts(s, n, text, head, more, "", o, i, i + |more|);
    LowerOfPart(s, n, text);
    LowerOfPart(s, o, head);
    LowerOfPart(s, i, more);
  }

  lemma {:induction false} NoEndFound(close: string, more: string, lower: string, i: nat)
    requires OccursAt(more, lower, i) && |lower| == i + |more| && forall k: nat :: !OccursAt(close, more, k)
    ensures Find(close, lower, i) == None
  {
    FirstIs(Occurs(close, lower), |lower|, i);
    if Find(close, lower, i).Some? {
      var k := Find(close, lower, i).value;
      assert Occurs(close, lower)(k);
      OccursWithin(close, lower, i, more, k);
    }
  }

  lemma {:induction false} UnclosedOpens(tag: string, text: string, more: string, lower: string, n: nat, o: nat, i: nat)
    requires IsTagName(tag) && KeepsText("<" + tag, text) && o == n + |text| && i == o + |tag| + 1
    requires OccursAt(text, lower, n) && OccursAt("<" + tag, lower, o) && OccursAt(more, lower, i)
    requires |lower| == i + |more| && (more != "" ==> IsBoundary(more[0]))
    ensures OpensAt("<" + tag, lower, o)
    ensures forall k: nat :: n <= k < o ==> !Opens(PatternsOf(tag), lower)(k)
  {
    var open := "<" + tag;
    assert more != "" ==> lower[i] == lower[i..i + |more|][0];
    assert lower[o] == lower[o..o + |open|][0] == '<';
    forall k: nat | n <= k < o ensures !Opens(PatternsOf(tag), lower)(k) {
      if o < k + |open| <= |lower| {
        assert lower[k..k + |open|][o - k] == lower[o];
        assert open[o - k] == tag[o - k - 1];
      } else if k + |open| <= o {
        OccursWithin(open, lower, n, text, k);
        assert k + |open| < o ==> lower[k + |open|] == lower[n..o][k - n + |open|];
      }
    }
  }

  lemma {:induction false} UnclosedTakesRest(tag: string, text: string, name: string, more: string)
    requires IsTagName(tag) && IsRest(tag, Unclosed(text, name, more))
    ensures EndsAs(PatternsOf(tag), RestText(Unclosed(text, name, more)), text)
  {
    var p := PatternsOf(tag);
    forall s: string, n: nat | n <= |s| && s[n..] == RestText(Unclosed(text, name, more))
      ensures Strip(p, s, Lower(s), n) == text
    {
      UnclosedStrips(tag, text, name, more, s, n);
    }
  }

  lemma {:induction false} UnclosedStrips(tag: string, text: string, name: string, more: string, s: string, n: nat)
    requires IsTagName(tag) && IsRest(tag, Unclosed(text, name, more))
    requires n <= |s| && s[n..] == text + ("<" + name + more)
    ensures Strip(PatternsOf(tag), s, Lower(s), n) == text
  {
    var p, lower, o := PatternsOf(tag), Lower(s), n + |text|;
    UnclosedIsOpen(tag, text, name, more, s, lower, n, o);
    CutElement(p, s, lower, n, o, text, |s|);
    NothingBehind(p, s, text);
  }

  lemma {:induction false} UnclosedFits(tag: string, text: string, name: string, more: string)
    requires IsRest(tag, Unclosed(text, name, more))
    ensures KeepsText("<" + tag, Lower(text)) && (Lower(more) != "" ==> IsBoundary(Lower(more)[0]))
    ensures forall k: nat :: !OccursAt("</" + tag + ">", Lower(more), k)
  {
    NoTagIsKept(tag, text);
    if more != "" {
      LowerKeepsBoundaries(more[0]);
    }
  }

  lemma {:induction false} UnclosedIsOpen(
    tag: string, text: string, name: string, more: string, s: string, lower: string, n: nat, o: nat)
    requires IsTagName(tag) && IsRest(tag, Unclosed(text, name, more)) && lower == Lower(s)
    requires n <= |s| && s[n..] == text + ("<" + name + more) && o == n + |text|
    ensures o < |s| && s[n..o] == text && OpensAt("<" + tag, lower, o) && EndOf(PatternsOf(tag), lower, o) == |lower|
    ensures forall k: nat :: n <= k < o ==> !Opens(PatternsOf(tag), lower)(k)
  {
    var i := o + |tag| + 1;
    UnclosedParts(tag, text, name, more, s, n, o, i);
    UnclosedFits(tag, text, name, more);
    UnclosedOpens(tag, Lower(text), Lower(more), lower, n, o, i);
    NoEndFound("</" + tag + ">", Lower(more), lower, i);
  }

  lemma {:induction false} NothingBehind(p: Patterns, s: string, text: string)
    requires p.open != ""
    ensures text + Strip(p, s, Lower(s), |s|) == text
  {
    SkipText(p, s, Lower(s), |s|, |s|);
    assert s[|s|..] == "";
  }

  // Stripping recovers the texts between any elements of the tag, with attributes or without, and the text
  // before one that is never closed.
  lemma {:induction false} StripInvertsEmbedding(tag: string, es: seq<Element>, rest: Rest)
    requires IsTagName(tag) && (forall e :: e in es ==> IsElement(tag, e)) && IsRest(tag, rest)
    ensures Stripped(tag, Markup(es, RestText(rest))) == ElementTexts(es, rest.text)
  {
    ElementsArePieces(tag, es);
    match rest {
      case Plain(text) => PlainStays(tag, text);
      case Unclosed(text, name, more) => UnclosedTakesRest(tag, text, name, more);
    }
    StripPieces(tag, PiecesOf(es), RestText(rest), rest.text);
    MarkupIsRendered(es, RestText(rest), rest.text);
  }
}
