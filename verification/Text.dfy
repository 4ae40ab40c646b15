// Shared by several components: options, numbers, white space, letter case, flattening.

module Wrappers {
  datatype Option<+T> = None | Some(value: T)

  datatype Result<+T, +E> = Success(value: T) | Failure(error: E)
}

module Numbers {
  function Min(a: nat, b: nat): nat {
    if a <= b then a else b
  }

  function Max(a: nat, b: nat): nat {
    if a >= b then a else b
  }
}

module Text {

  predicate StartsWith(s: string, prefix: string) {
    |prefix| <= |s| && s[..|prefix|] == prefix
  }

  // The Unicode White_Space property, which str::trim uses.
  predicate IsWhitespace(c: char) {
    || '\t' <= c <= '\r'
    || c in {' ', '\U{0085}', '\U{00A0}', '\U{1680}', '\U{2028}', '\U{2029}', '\U{202F}', '\U{205F}', '\U{3000}'}
    || '\U{2000}' <= c <= '\U{200A}'
  }

  // The code points of that property in the Unicode character database.
  lemma {:induction false} WhitespaceTable(c: char)
    ensures IsWhitespace(c) <==>
            || 0x9 <= c as int <= 0xD || 0x2000 <= c as int <= 0x200A
            || c as int in {0x20, 0x85, 0xA0, 0x1680, 0x2028, 0x2029, 0x202F, 0x205F, 0x3000}
  {
  }

  predicate IsBlank(s: string) {
    AllIn(IsWhitespace, s)
  }

  predicate AllIn(space: char -> bool, s: string) {
    forall k :: 0 <= k < |s| ==> space(s[k])
  }

  // The smallest position at or after `from` that holds no space.
  function TrimStartAt(space: char -> bool, s: string, from: nat): (r: nat)
    requires from <= |s|
    ensures from <= r <= |s| && (forall k :: from <= k < r ==> space(s[k])) && (r < |s| ==> !space(s[r]))
    decreases |s| - from
  {
    if from < |s| && space(s[from]) then TrimStartAt(space, s, from + 1) else from
  }

  // The largest position at or before `to`, and no smaller than `from`, preceded by no space.
  function TrimEndAt(space: char -> bool, s: string, from: nat, to: nat): (r: nat)
    requires from <= to <= |s|
    ensures from <= r <= to && (forall k :: r <= k < to ==> space(s[k])) && (from < r ==> !space(s[r - 1]))
  {
    if from < to && space(s[to - 1]) then TrimEndAt(space, s, from, to - 1) else to
  }

  function TrimBy(space: char -> bool, s: string): (r: string)
    ensures r == "" <==> AllIn(space, s)
    ensures r != "" ==> !space(r[0]) && !space(r[|r| - 1])
  {
    var a := TrimStartAt(space, s, 0);
    s[a..TrimEndAt(space, s, a, |s|)]
  }

  function Trim(s: string): string {
    TrimBy(IsWhitespace, s)
  }

  // Trimming what has no space at either end changes nothing.
  lemma {:induction false} TrimKeeps(space: char -> bool, before: string, s: string, after: string)
    requires AllIn(space, before) && AllIn(space, after)
    requires s != "" && !space(s[0]) && !space(s[|s| - 1])
    ensures TrimBy(space, before + s + after) == s
  {
    var t := before + s + after;
    assert t[|before|] == s[0] && t[|before| + |s| - 1] == s[|s| - 1];
    assert forall k :: 0 <= k < |before| ==> t[k] == before[k];
    assert forall k :: |before| + |s| <= k < |t| ==> t[k] == after[k - |before| - |s|];
    var a := TrimStartAt(space, t, 0);
    var b := TrimEndAt(space, t, a, |t|);
    assert t[a..b] == s;
  }

  function TrimEndBy(space: char -> bool, s: string): string {
    s[..TrimEndAt(space, s, 0, |s|)]
  }

  lemma {:induction false} TrimEndIs(space: char -> bool, s: string, from: nat, to: nat, r: nat)
    requires from <= r <= to <= |s| && (forall k :: r <= k < to ==> space(s[k])) && (from < r ==> !space(s[r - 1]))
    ensures TrimEndAt(space, s, from, to) == r
  {
  }

  lemma {:induction false} TrimBounds(space: char -> bool, s: string) returns (a: nat, b: nat)
    requires !AllIn(space, s)
    ensures a < b <= |s| && !space(s[a]) && !space(s[b - 1])
    ensures forall k :: 0 <= k < a || b <= k < |s| ==> space(s[k])
    ensures TrimBy(space, s) == s[a..b] && TrimEndBy(space, s) == s[..b]
  {
    a := TrimStartAt(space, s, 0);
    b := TrimEndAt(space, s, a, |s|);
    TrimEndIs(space, s, 0, |s|, b);
  }

  // A text that is not blank: space, what remains, space.
  lemma {:induction false} TrimParts(space: char -> bool, s: string)
    returns (before: string, core: string, after: string)
    requires !AllIn(space, s)
    ensures AllIn(space, before) && AllIn(space, after) && core != "" && !space(core[0]) && !space(core[|core| - 1])
    ensures s == before + core + after && TrimBy(space, s) == core && TrimEndBy(space, s) == before + core
  {
    var a, b := TrimBounds(space, s);
    before, core, after := s[..a], s[a..b], s[b..];
    SliceInThree(s, a, b);
  }

  lemma {:induction false} SliceInThree(s: string, a: nat, b: nat)
    requires a <= b <= |s|
    ensures s == s[..a] + s[a..b] + s[b..] && s[..b] == s[..a] + s[a..b]
    ensures a < b ==> s[a..b][0] == s[a] && s[a..b][b - a - 1] == s[b - 1]
  {
  }

  lemma {:induction false} AllInConcat(space: char -> bool, a: string, b: string)
    ensures AllIn(space, a + b) <==> AllIn(space, a) && AllIn(space, b)
  {
    assert forall k :: 0 <= k < |b| ==> (a + b)[|a| + k] == b[k];
    assert forall k :: 0 <= k < |a| ==> (a + b)[k] == a[k];
  }

  lemma {:induction false} Regroup(x: string, b: string, c: string, a: string, y: string)
    ensures x + (b + c + a) + y == (x + b) + c + (a + y)
  {
  }

  lemma {:induction false} TrimAround(space: char -> bool, before: string, s: string, after: string)
    requires AllIn(space, before) && AllIn(space, after)
    ensures TrimBy(space, before + s + after) == TrimBy(space, s)
  {
    AllInConcat(space, before, s);
    AllInConcat(space, before + s, after);
    if !AllIn(space, s) {
      var b, core, a := TrimParts(space, s);
      AllInConcat(space, before, b);
      AllInConcat(space, a, after);
      TrimKeeps(space, before + b, core, a + after);
      Regroup(before, b, core, a, after);
    }
  }

  lemma {:induction false} TrimEndKeeps(space: char -> bool, s: string)
    requires s != "" && !space(s[|s| - 1])
    ensures TrimEndBy(space, s) == s
  {
    assert s[..|s|] == s;
  }

  lemma {:induction false} TrimKeepsAll(space: char -> bool, s: string)
    requires s != "" && !space(s[0]) && !space(s[|s| - 1])
    ensures TrimBy(space, s) == s && TrimEndBy(space, s) == s
  {
    TrimEndKeeps(space, s);
    TrimKeeps(space, "", s, "");
    assert "" + s + "" == s;
  }

  lemma {:induction false} TrimEndTwice(space: char -> bool, s: string)
    ensures TrimEndBy(space, TrimEndBy(space, s)) == TrimEndBy(space, s)
    ensures TrimBy(space, TrimEndBy(space, s)) == TrimBy(space, s)
    ensures TrimBy(space, s) == "" <==> TrimEndBy(space, s) == ""
  {
    var e := TrimEndAt(space, s, 0, |s|);
    var t, after := s[..e], s[e..];
    assert AllIn(space, after) && s == "" + t + after;
    TrimAround(space, "", t, after);
    if t != "" {
      assert t[e - 1] == s[e - 1];
      TrimEndKeeps(space, t);
    }
  }

  // Letters are folded as for ASCII.
  function ToLower(c: char): char {
    if 'A' <= c <= 'Z' then (c as int + 32) as char else c
  }

  lemma {:induction false} LetterTable(k: nat, c: char)
    requires k < 26
    ensures ToLower("ABCDEFGHIJKLMNOPQRSTUVWXYZ"[k]) == "abcdefghijklmnopqrstuvwxyz"[k]
    ensures !(65 <= c as int <= 90) ==> ToLower(c) == c
  {
  }

  function Lower(s: string): (r: string)
    ensures |r| == |s| && forall k :: 0 <= k < |s| ==> r[k] == ToLower(s[k])
  {
    seq(|s|, k requires 0 <= k < |s| => ToLower(s[k]))
  }

  function Flatten<T>(parts: seq<seq<T>>): seq<T> {
    if parts == [] then [] else parts[0] + Flatten(parts[1..])
  }

  lemma {:induction false} ConcatAssoc<T>(a: seq<T>, b: seq<T>, c: seq<T>)
    ensures (a + b) + c == a + (b + c)
  {
  }

  lemma {:induction false} SliceFirst<T>(s: seq<T>, i: nat)
    requires i < |s|
    ensures s[i..] == [s[i]] + s[i + 1..]
  {
  }

  lemma {:induction false} SliceOfSlice<T>(s: seq<T>, a: nat, b: nat, c: nat, d: nat)
    requires a <= b <= |s| && c <= d <= b - a
    ensures s[a..b][c..d] == s[a + c..a + d]
  {
    var x, y := s[a..b][c..d], s[a + c..a + d];
    forall k | 0 <= k < d - c ensures x[k] == y[k] {
      assert x[k] == s[a..b][c + k] == s[a + (c + k)];
    }
    assert x == y;
  }

  lemma {:induction false} FlattenAppend<T>(a: seq<seq<T>>, b: seq<seq<T>>)
    ensures Flatten(a + b) == Flatten(a) + Flatten(b)
  {
    if a == [] {
      assert a + b == b;
    } else {
      FlattenAppend(a[1..], b);
      assert (a + b)[1..] == a[1..] + b;
      ConcatAssoc(a[0], Flatten(a[1..]), Flatten(b));
    }
  }
}
