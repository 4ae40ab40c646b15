// The search for the opening of the message value (crates/kenjaku-infra/src/llm/gemini.rs,
// find_message_value_start), for any key. Positions count characters.

module KeySearch {
  import opened Wrappers

  // The white space the search skips. JSON also allows a carriage return here.
  predicate IsSkipped(c: char) {
    c == ' ' || c == '\t' || c == '\n'
  }

  predicate Skipped(s: string, from: nat, to: nat)
    requires to <= |s|
  {
    forall k :: from <= k < to ==> IsSkipped(s[k])
  }

  predicate KeyAt(key: string, s: string, i: nat) {
    i + |key| <= |s| && s[i..i + |key|] == key
  }

  function SkipFrom(s: string, j: nat): (r: nat)
    requires j <= |s|
    ensures j <= r <= |s| && Skipped(s, j, r) && (r < |s| ==> !IsSkipped(s[r]))
    decreases |s| - j
  {
    if j < |s| && IsSkipped(s[j]) then SkipFrom(s, j + 1) else j
  }

  datatype Verdict =
    | NotTheKey           // no colon follows: keep searching
    | NoValue             // the text ends here, or the value is no string: give up
    | ValueAt(start: nat) // the first character after the opening quote

  // What the search makes of the key at i.
  function Examine(key: string, s: string, i: nat): Verdict
    requires KeyAt(key, s, i)
  {
    var colon := SkipFrom(s, i + |key|);
    if colon == |s| then NoValue
    else if s[colon] != ':' then NotTheKey
    else
      var quote := SkipFrom(s, colon + 1);
      if quote == |s| || s[quote] != '"' then NoValue else ValueAt(quote + 1)
  }

  // The position behind the opening quote of the value, if the search from i on finds one.
  function ValueStart(key: string, s: string, i: nat): (r: Option<nat>)
    ensures r.Some? ==> i + |key| < r.value <= |s| && s[r.value - 1] == '"'
    decreases |s| - i
  {
    if i + |key| > |s| then None
    else if !KeyAt(key, s, i) then ValueStart(key, s, i + 1)
    else
      match Examine(key, s, i)
      case NotTheKey => ValueStart(key, s, i + 1)
      case NoValue => None
      case ValueAt(p) => Some(p)
  }

  // ---- The loop -----------------------------------------------------------------------------

  method SkipBlanks(buffer: string, from: nat) returns (j: nat)
    requires from <= |buffer|
    ensures j == SkipFrom(buffer, from)
  {
    j := from;
    while j < |buffer| && (buffer[j] == ' ' || buffer[j] == '\t' || buffer[j] == '\n')
      invariant from <= j <= |buffer|
      invariant SkipFrom(buffer, from) == SkipFrom(buffer, j)
    {
      j := j + 1;
    }
  }

  // The key has been found at i.
  method ExamineKey(key: string, buffer: string, i: nat) returns (v: Verdict)
    requires KeyAt(key, buffer, i)
    ensures v == Examine(key, buffer, i)
  {
    var j := SkipBlanks(buffer, i + |key|);
    if j >= |buffer| {
      return NoValue;
    }
    if buffer[j] != ':' {
      return NotTheKey;
    }
    j := SkipBlanks(buffer, j + 1);
    if j >= |buffer| {
      return NoValue;
    }
    if buffer[j] != '"' {
      return NoValue;
    }
    return ValueAt(j + 1);
  }

  method FindValueStart(key: string, buffer: string, from: nat) returns (r: Option<nat>)
    ensures r == ValueStart(key, buffer, from)
  {
    if from >= |buffer| {
      return None;
    }
    var i := from;
    ghost var total := ValueStart(key, buffer, from);
    while i + |key| <= |buffer|
      invariant from <= i
      invariant total == ValueStart(key, buffer, i)
    {
      if buffer[i..i + |key|] == key {
        var verdict := ExamineKey(key, buffer, i);
        match verdict {
          case NotTheKey =>
          case NoValue => return None;
          case ValueAt(start) => return Some(start);
        }
      }
      i := i + 1;
    }
    return None;
  }

  // ---- What the search finds ---------------------------------------------------------------

  // Blanks, tabs and line feeds.
  predicate AreBlanks(s: string, from: nat, to: nat)
    requires to <= |s|
  {
    forall k :: from <= k < to ==> s[k] in {' ', '\t', '\n'}
  }

  // The opening as a pattern: the key at i, a colon at c, a quote at p - 1, blanks between.
  ghost predicate OpensAt(key: string, s: string, i: nat, c: nat, p: nat) {
    && KeyAt(key, s, i) && i + |key| <= c && c + 1 < p <= |s|
    && AreBlanks(s, i + |key|, c) && s[c] == ':'
    && AreBlanks(s, c + 1, p - 1) && s[p - 1] == '"'
  }

  // An occurrence of the key that can be no field key: d holds neither a blank nor a colon.
  ghost predicate PassedOver(key: string, s: string, i: nat) {
    KeyAt(key, s, i) ==>
      exists d :: i + |key| <= d < |s| && AreBlanks(s, i + |key|, d) && s[d] !in {' ', '\t', '\n', ':'}
  }

  lemma {:induction false} ExamineMeansOpening(key: string, s: string, i: nat, p: nat)
    requires KeyAt(key, s, i)
    ensures Examine(key, s, i) == ValueAt(p) <==> exists c :: OpensAt(key, s, i, c, p)
    ensures Examine(key, s, i).NotTheKey? <==> PassedOver(key, s, i)
  {
    var c := SkipFrom(s, i + |key|);
    if c < |s| && s[c] == ':' {
      var q := SkipFrom(s, c + 1);
      assert q < |s| && s[q] == '"' && p == q + 1 ==> OpensAt(key, s, i, c, p);
      assert forall c' :: OpensAt(key, s, i, c', p) ==> c' == c && p == q + 1;
    }
  }

  // p is the opening of the first occurrence from `from` on that is not passed over.
  ghost predicate FirstOpening(key: string, s: string, from: nat, p: nat) {
    exists i, c :: from <= i && OpensAt(key, s, i, c, p) && forall k :: from <= k < i ==> PassedOver(key, s, k)
  }

  lemma {:induction false} FirstOpeningBehind(key: string, s: string, from: nat, p: nat)
    requires PassedOver(key, s, from) && forall c :: !OpensAt(key, s, from, c, p)
    ensures FirstOpening(key, s, from, p) <==> FirstOpening(key, s, from + 1, p)
  {
    if FirstOpening(key, s, from, p) {
      var i, c :| from <= i && OpensAt(key, s, i, c, p) && forall k :: from <= k < i ==> PassedOver(key, s, k);
      assert i != from;
    }
    if FirstOpening(key, s, from + 1, p) {
      var i, c :| from + 1 <= i && OpensAt(key, s, i, c, p) && forall k :: from + 1 <= k < i ==> PassedOver(key, s, k);
    }
  }

  lemma {:induction false} FirstOpeningHere(key: string, s: string, from: nat, p: nat)
    requires !PassedOver(key, s, from)
    ensures FirstOpening(key, s, from, p) <==> exists c :: OpensAt(key, s, from, c, p)
  {
    if FirstOpening(key, s, from, p) {
      var i, c :| from <= i && OpensAt(key, s, i, c, p) && forall k :: from <= k < i ==> PassedOver(key, s, k);
      assert i == from;
    }
  }

  // The search answers p exactly when p is that opening.
  lemma {:induction false} SearchFindsFirstOpening(key: string, s: string, from: nat, p: nat)
    ensures ValueStart(key, s, from) == Some(p) <==> FirstOpening(key, s, from, p)
    decreases |s| - from
  {
    if from + |key| > |s| {
      assert forall i, c :: from <= i ==> !OpensAt(key, s, i, c, p);
    } else {
      SearchFindsFirstOpening(key, s, from + 1, p);
      if !KeyAt(key, s, from) {
        FirstOpeningBehind(key, s, from, p);
      } else {
        ExamineMeansOpening(key, s, from, p);
        if PassedOver(key, s, from) {
          FirstOpeningBehind(key, s, from, p);
        } else {
          FirstOpeningHere(key, s, from, p);
        }
      }
    }
  }

  // ---- More text ---------------------------------------------------------------------------

  lemma {:induction false} SkipStable(s: string, t: string, j: nat)
    requires j <= |s|
    ensures SkipFrom(s, j) < |s| ==> SkipFrom(s + t, j) == SkipFrom(s, j)
    ensures SkipFrom(s, j) == |s| ==> SkipFrom(s + t, j) >= |s|
  {
    var r, r' := SkipFrom(s, j), SkipFrom(s + t, j);
    assert r' < |s| ==> (s + t)[r'] == s[r'];
    assert r < |s| ==> (s + t)[r] == s[r];
  }

  lemma {:induction false} ExamineStable(key: string, s: string, t: string, i: nat)
    requires KeyAt(key, s, i)
    ensures KeyAt(key, s + t, i)
    ensures !Examine(key, s, i).NoValue? ==> Examine(key, s + t, i) == Examine(key, s, i)
    ensures Examine(key, s, i).NoValue? && Examine(key, s + t, i).ValueAt? ==> Examine(key, s + t, i).start > |s|
    ensures Examine(key, s, i).NoValue? && Examine(key, s + t, i).NotTheKey? ==> Skipped(s, i + |key|, |s|)
  {
    assert (s + t)[i..i + |key|] == s[i..i + |key|];
    SkipStable(s, t, i + |key|);
    var colon := SkipFrom(s, i + |key|);
    if colon < |s| && s[colon] == ':' {
      SkipStable(s, t, colon + 1);
    }
  }

  // More text never changes an answer the search has given.
  lemma {:induction false} FoundStaysFound(key: string, s: string, t: string, i: nat)
    requires ValueStart(key, s, i).Some?
    ensures ValueStart(key, s + t, i) == ValueStart(key, s, i)
    decreases |s| - i
  {
    assert (s + t)[i..i + |key|] == s[i..i + |key|];
    if KeyAt(key, s, i) {
      ExamineStable(key, s, t, i);
    }
    if !KeyAt(key, s, i) || Examine(key, s, i).NotTheKey? {
      FoundStaysFound(key, s, t, i + 1);
    }
  }

  // A failed search hides nothing: what a longer text reveals lies beyond the text that was searched.
  lemma {:induction false} NothingFoundLate(key: string, s: string, t: string, i: nat)
    requires ValueStart(key, s, i).None? && ValueStart(key, s + t, i).Some?
    ensures ValueStart(key, s + t, i).value > |s|
    decreases |s| - i
  {
    if i + |key| <= |s| {
      assert (s + t)[i..i + |key|] == s[i..i + |key|];
      if KeyAt(key, s, i) {
        ExamineStable(key, s, t, i);
      }
      if !KeyAt(key, s, i) || Examine(key, s, i).NotTheKey? {
        NothingFoundLate(key, s, t, i + 1);
      }
    }
  }

  predicate FirstKeyAt(key: string, s: string, i: nat) {
    KeyAt(key, s, i) && forall k :: 0 <= k < i ==> !KeyAt(key, s, k)
  }

  lemma {:induction false} SearchReachesKey(key: string, s: string, i: nat, j: nat)
    requires j <= i && FirstKeyAt(key, s, i)
    ensures ValueStart(key, s, j) == ValueStart(key, s, i)
    decreases i - j
  {
    if j < i {
      SearchReachesKey(key, s, i, j + 1);
    }
  }

  // The answer is decided at the first key, unless that one is passed over.
  lemma {:induction false} DecidedAtFirstKey(key: string, s: string, i: nat)
    requires FirstKeyAt(key, s, i)
    ensures match Examine(key, s, i)
            case NotTheKey => ValueStart(key, s, 0) == ValueStart(key, s, i + 1)
            case NoValue => ValueStart(key, s, 0) == None
            case ValueAt(q) => ValueStart(key, s, 0) == Some(q)
  {
    SearchReachesKey(key, s, i, 0);
  }

  lemma {:induction false} FirstKeyStays(key: string, s: string, t: string, i: nat)
    requires FirstKeyAt(key, s, i)
    ensures FirstKeyAt(key, s + t, i)
  {
    assert (s + t)[i..i + |key|] == s[i..i + |key|];
    forall k | 0 <= k < i ensures !KeyAt(key, s + t, k) {
      assert !KeyAt(key, s, k);
      assert (s + t)[k..k + |key|] == s[k..k + |key|];
    }
  }

  lemma {:induction false} NonStringIsNoValue(key: string, s: string, i: nat, c: nat, d: nat)
    requires KeyAt(key, s, i) && i + |key| <= c < d < |s|
    requires AreBlanks(s, i + |key|, c) && s[c] == ':'
    requires AreBlanks(s, c + 1, d) && s[d] !in {' ', '\t', '\n', '"'}
    ensures Examine(key, s, i) == NoValue
  {
    assert SkipFrom(s, i + |key|) == c && SkipFrom(s, c + 1) == d;
  }

  // A first key whose value d is no string silences the search for good, whatever comes after.
  lemma {:induction false} NonStringSilences(key: string, s: string, i: nat, c: nat, d: nat, t: string)
    requires FirstKeyAt(key, s, i) && i + |key| <= c < d < |s|
    requires AreBlanks(s, i + |key|, c) && s[c] == ':'
    requires AreBlanks(s, c + 1, d) && s[d] !in {' ', '\t', '\n', '"'}
    ensures ValueStart(key, s + t, 0) == None
  {
    FirstKeyStays(key, s, t, i);
    NonStringIsNoValue(key, s + t, i, c, d);
    DecidedAtFirstKey(key, s + t, i);
  }

  // ---- JSON white space --------------------------------------------------------------------

  // White space between JSON tokens (RFC 8259, section 2).
  predicate JsonSpace(s: string, from: nat, to: nat)
    requires to <= |s|
  {
    forall k :: from <= k < to ==> s[k] in {' ', '\t', '\n', '\r'}
  }

  // A quoted key whose name starts with a letter.
  predicate IsQuotedKey(key: string) {
    && |key| > 2 && key[0] == '"' && key[|key| - 1] == '"' && 'a' <= key[1] <= 'z'
    && forall k :: 0 < k < |key| - 1 ==> key[k] != '"'
  }

  // JSON allows four white-space characters around the colon at c. The value that JSON starts at p is
  // found exactly when none of them is a carriage return.
  lemma {:induction false} FoundUnlessCarriageReturn(key: string, s: string, i: nat, c: nat, p: nat)
    requires IsQuotedKey(key) && FirstKeyAt(key, s, i)
    requires i + |key| <= c && c + 1 < p <= |s| && s[c] == ':' && s[p - 1] == '"'
    requires JsonSpace(s, i + |key|, c) && JsonSpace(s, c + 1, p - 1)
    ensures ValueStart(key, s, 0) == Some(p) <==> forall k :: i + |key| <= k < p ==> s[k] != '\r'
  {
    if k :| i + |key| <= k < p && s[k] == '\r' {
      CarriageReturnHides(key, s, i, c, p, k);
    } else {
      DecidedAtFirstKey(key, s, i);
      ExamineMeansOpening(key, s, i, p);
      assert OpensAt(key, s, i, c, p);
    }
  }

  predicate IsJsonSpace(s: string) {
    JsonSpace(s, 0, |s|)
  }

  // The same on the text of an object: what stands before the key holds no quote.
  lemma {:induction false} FoundInObject(
    key: string, before: string, space1: string, space2: string, rest: string, p: nat)
    requires IsQuotedKey(key) && '"' !in before && IsJsonSpace(space1) && IsJsonSpace(space2)
    requires p == |before| + |key| + |space1| + |space2| + 2
    ensures var s := before + key + (space1 + ":" + (space2 + "\"" + rest));
            && |s| == p + |rest| && s[p..] == rest
            && (ValueStart(key, s, 0) == Some(p) <==> '\r' !in space1 && '\r' !in space2)
  {
    var s := before + key + (space1 + ":" + (space2 + "\"" + rest));
    var i, j := |before|, |before| + |key|;
    var c := j + |space1|;
    ObjectParts(before, key, space1, space2, rest, s, i, j, c, p);
    FirstKeyBehind(key, before, space1 + ":" + (space2 + "\"" + rest));
    FoundInParts(key, s, i, j, c, p, space1, space2);
  }

  lemma {:induction false} FoundInParts(
    key: string, s: string, i: nat, j: nat, c: nat, p: nat, space1: string, space2: string)
    requires IsQuotedKey(key) && FirstKeyAt(key, s, i) && IsJsonSpace(space1) && IsJsonSpace(space2)
    requires j == i + |key| && j <= c && c + 1 < p <= |s| && s[c] == ':' && s[p - 1] == '"'
    requires s[j..c] == space1 && s[c + 1..p - 1] == space2
    ensures ValueStart(key, s, 0) == Some(p) <==> '\r' !in space1 && '\r' !in space2
  {
    SpaceInSlice(s, j, c, space1);
    SpaceInSlice(s, c + 1, p - 1, space2);
    FoundUnlessCarriageReturn(key, s, i, c, p);
  }

  lemma {:induction false} SpaceInSlice(s: string, from: nat, to: nat, space: string)
    requires from <= to <= |s| && s[from..to] == space && IsJsonSpace(space)
    ensures JsonSpace(s, from, to)
    ensures (forall k :: from <= k < to ==> s[k] != '\r') <==> '\r' !in space
  {
    assert forall k :: from <= k < to ==> s[k] == space[k - from];
    assert forall k :: 0 <= k < |space| ==> space[k] == s[from + k];
  }

  lemma {:induction false} ObjectParts(
    before: string, key: string, space1: string, space2: string, rest: string, s: string,
    i: nat, j: nat, c: nat, p: nat)
    requires s == before + key + (space1 + ":" + (space2 + "\"" + rest))
    requires i == |before| && j == i + |key| && c == j + |space1| && p == c + |space2| + 2
    ensures |s| == p + |rest| && s[i..j] == key && s[j..c] == space1 && s[c] == ':'
    ensures s[c + 1..p - 1] == space2 && s[p - 1] == '"' && s[p..] == rest
  {
  }

  lemma {:induction false} FirstKeyBehind(key: string, before: string, after: string)
    requires IsQuotedKey(key) && '"' !in before
    ensures FirstKeyAt(key, before + key + after, |before|)
  {
    var s := before + key + after;
    assert s[|before|..|before| + |key|] == key;
    forall k | 0 <= k < |before| ensures !KeyAt(key, s, k) {
      assert s[k] == before[k] && before[k] in before;
      assert k + |key| <= |s| ==> s[k..k + |key|][0] == s[k];
    }
  }

  lemma {:induction false} CarriageReturnHides(key: string, s: string, i: nat, c: nat, p: nat, k: nat)
    requires IsQuotedKey(key) && FirstKeyAt(key, s, i)
    requires i + |key| <= c && c + 1 < p <= |s| && s[c] == ':' && s[p - 1] == '"'
    requires JsonSpace(s, i + |key|, c) && JsonSpace(s, c + 1, p - 1)
    requires i + |key| <= k < p && s[k] == '\r'
    ensures ValueStart(key, s, 0) != Some(p)
  {
    DecidedAtFirstKey(key, s, i);
    CarriageReturnStops(key, s, i, c, p, k);
    NoOverlap(key, s, i, p - 1);
    NoValueBefore(key, s, i + 1, p - 1);
  }

  lemma {:induction false} CarriageReturnStops(key: string, s: string, i: nat, c: nat, p: nat, k: nat)
    requires KeyAt(key, s, i) && i + |key| <= c && c + 1 < p <= |s| && s[c] == ':' && s[p - 1] == '"'
    requires JsonSpace(s, i + |key|, c) && JsonSpace(s, c + 1, p - 1)
    requires i + |key| <= k < p && s[k] == '\r'
    ensures Examine(key, s, i) != ValueAt(p)
  {
    ExamineMeansOpening(key, s, i, p);
    assert forall c' :: OpensAt(key, s, i, c', p) ==> c' == c;
  }

  lemma {:induction false} NoOverlap(key: string, s: string, i: nat, n: nat)
    requires IsQuotedKey(key) && KeyAt(key, s, i) && i + |key| < n < |s|
    requires forall k :: i + |key| <= k < n ==> s[k] != '"' && !('a' <= s[k] <= 'z')
    ensures forall j :: i < j < n ==> !KeyAt(key, s, j)
  {
    var first := s[i..i + |key|];
    forall j | i < j < n ensures !KeyAt(key, s, j) {
      if j + |key| <= |s| {
        var second := s[j..j + |key|];
        assert second[0] == s[j] && second[1] == s[j + 1];
        assert j < i + |key| ==> s[j] == first[j - i];
      }
    }
  }

  lemma {:induction false} NoValueBefore(key: string, s: string, j: nat, n: nat)
    requires j <= n && forall k :: j <= k < n ==> !KeyAt(key, s, k)
    ensures ValueStart(key, s, j).Some? ==> ValueStart(key, s, j).value > n + |key|
    decreases n - j
  {
    if j < n {
      NoValueBefore(key, s, j + 1, n);
    }
  }
}
