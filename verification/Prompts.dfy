// Single-pass template rendering (crates/kenjaku-core/src/prompts/mod.rs, render).

module Prompts {
  import opened Wrappers
  import opened Text

  // ---- Doubled braces ----------------------------------------------------------------------

  // The first place where c stands twice in a row.
  function FindPair(c: char, s: string): (r: Option<nat>)
    ensures r.Some? ==> r.value + 2 <= |s| && s[r.value] == s[r.value + 1] == c
  {
    if |s| < 2 then None
    else if s[0] == c && s[1] == c then Some(0)
    else
      match FindPair(c, s[1..])
      case None => None
      case Some(i) => Some(i + 1)
  }

  // s holds no pair, not even with one more c behind it.
  predicate Free(c: char, s: string) {
    FindPair(c, s + [c]).None?
  }

  lemma {:induction false} FindBehindFree(c: char, a: string, s: string)
    requires Free(c, a)
    ensures FindPair(c, a + s) == match FindPair(c, s) case None => None case Some(i) => Some(|a| + i)
  {
    if a == "" {
      assert a + s == s;
    } else {
      assert (a + s)[1..] == a[1..] + s && (a + [c])[1..] == a[1..] + [c];
      FindBehindFree(c, a[1..], s);
    }
  }

  lemma {:induction false} FoundIsFirst(c: char, s: string)
    requires FindPair(c, s).Some?
    ensures Free(c, s[..FindPair(c, s).value])
  {
    var o := FindPair(c, s).value;
    if o > 0 {
      FoundIsFirst(c, s[1..]);
      assert (s[..o] + [c])[1..] == s[1..][..o - 1] + [c];
    }
  }

  // ---- The template as literals and slots --------------------------------------------------

  datatype Pair = Pair(key: string, value: string)

  datatype Part = Lit(text: string) | Slot(inner: string)

  function SlotText(inner: string): string {
    "{{" + (inner + "}}")
  }

  // The first slot of a template: what stands before it, in it and behind it.
  datatype Cut = Cut(before: string, inner: string, after: string)

  function FirstSlot(t: string): (r: Option<Cut>)
    ensures r.Some? ==> |r.value.after| < |t|
  {
    match FindPair('{', t)
    case None => None
    case Some(o) =>
      match FindPair('}', t[o + 2..])
      case None => None
      case Some(e) => Some(Cut(t[..o], t[o + 2..][..e], t[o + 2..][e + 2..]))
  }

  function Parse(t: string): seq<Part>
    decreases |t|
  {
    match FirstSlot(t)
    case None => [Lit(t)]
    case Some(cut) => [Lit(cut.before), Slot(cut.inner)] + Parse(cut.after)
  }

  function Lookup(pairs: seq<Pair>, key: string): Option<string> {
    if pairs == [] then None
    else if pairs[0].key == key then Some(pairs[0].value)
    else Lookup(pairs[1..], key)
  }

  function FillSlot(inner: string, pairs: seq<Pair>): string {
    match Lookup(pairs, Trim(inner))
    case Some(value) => value
    case None => SlotText(inner)
  }

  function Fill(part: Part, pairs: seq<Pair>): string {
    match part
    case Lit(text) => text
    case Slot(inner) => FillSlot(inner, pairs)
  }

  function FillAll(parts: seq<Part>, pairs: seq<Pair>): string {
    if parts == [] then "" else Fill(parts[0], pairs) + FillAll(parts[1..], pairs)
  }

  function Rendered(t: string, pairs: seq<Pair>): string {
    FillAll(Parse(t), pairs)
  }

  lemma {:induction false} RenderUnfolds(t: string, pairs: seq<Pair>)
    ensures FirstSlot(t).None? ==> Rendered(t, pairs) == t
    ensures FirstSlot(t).Some? ==>
              var cut := FirstSlot(t).value;
              Rendered(t, pairs) == cut.before + (FillSlot(cut.inner, pairs) + Rendered(cut.after, pairs))
  {
    match FirstSlot(t)
    case None =>
      assert [Lit(t)][1..] == [] && t + "" == t;
      assert FillAll([Lit(t)], pairs) == t + FillAll([], pairs);
    case Some(cut) =>
      var rest := Parse(cut.after);
      FillCons(Slot(cut.inner), rest, pairs);
      FillCons(Lit(cut.before), [Slot(cut.inner)] + rest, pairs);
      assert [Lit(cut.before), Slot(cut.inner)] + rest == [Lit(cut.before)] + ([Slot(cut.inner)] + rest);
  }

  lemma {:induction false} FillCons(part: Part, parts: seq<Part>, pairs: seq<Pair>)
    ensures FillAll([part] + parts, pairs) == Fill(part, pairs) + FillAll(parts, pairs)
  {
    assert ([part] + parts)[1..] == parts;
  }

  lemma {:induction false} FirstSlotIs(t: string, o: nat, tail: string, e: nat, cut: Cut)
    requires FindPair('{', t) == Some(o) && tail == t[o + 2..] && FindPair('}', tail) == Some(e)
    requires cut == Cut(t[..o], tail[..e], tail[e + 2..])
    ensures FirstSlot(t) == Some(cut)
  {
  }

  lemma {:induction false} NoFirstSlot(t: string, o: nat, tail: string)
    requires FindPair('{', t) == Some(o) && tail == t[o + 2..] && FindPair('}', tail).None?
    ensures FirstSlot(t) == None
  {
  }

  // One turn of the loop, with the slot closed at e.
  lemma {:induction false} RenderTurn(
    rest: string, start: nat, afterOpen: string, e: nat, next: string, pairs: seq<Pair>, out: string, total: string)
    requires FindPair('{', rest) == Some(start) && afterOpen == rest[start + 2..]
    requires FindPair('}', afterOpen) == Some(e) && next == afterOpen[e + 2..]
    requires out + Rendered(rest, pairs) == total
    ensures out + rest[..start] + FillSlot(afterOpen[..e], pairs) + Rendered(next, pairs) == total
  {
    var value := FillSlot(afterOpen[..e], pairs);
    FirstSlotIs(rest, start, afterOpen, e, Cut(rest[..start], afterOpen[..e], next));
    RenderUnfolds(rest, pairs);
    ConcatAssoc(out, rest[..start], value + Rendered(next, pairs));
    ConcatAssoc(out + rest[..start], value, Rendered(next, pairs));
  }

  // An unknown slot is copied from the template.
  lemma {:induction false} SlotIsCopied(rest: string, start: nat, afterOpen: string, e: nat, end: nat)
    requires start + 2 <= |rest| && rest[start] == rest[start + 1] == '{' && afterOpen == rest[start + 2..]
    requires e + 2 <= |afterOpen| && afterOpen[e] == afterOpen[e + 1] == '}' && end == start + e + 4
    ensures end <= |rest| && rest[start..end] == SlotText(afterOpen[..e])
  {
    assert rest[start..end][e + 2] == afterOpen[e] && rest[start..end][e + 3] == afterOpen[e + 1];
  }

  lemma {:induction false} RenderLast(rest: string, pairs: seq<Pair>)
    requires FindPair('{', rest).None? || FindPair('}', rest[FindPair('{', rest).value + 2..]).None?
    ensures Rendered(rest, pairs) == rest
  {
    RenderUnfolds(rest, pairs);
  }

  lemma {:induction false} RenderUnclosed(rest: string, start: nat, pairs: seq<Pair>, out: string, total: string)
    requires FindPair('{', rest) == Some(start) && FindPair('}', rest[start + 2..]).None?
    requires out + Rendered(rest, pairs) == total
    ensures out + rest[..start] + rest[start..] == total
    ensures out + rest[..start] + rest[start..] + Rendered("", pairs) == total
  {
    RenderLast(rest, pairs);
    RenderLast("", pairs);
    assert rest == rest[..start] + rest[start..];
    ConcatAssoc(out, rest[..start], rest[start..]);
  }

  method Render(template: string, pairs: seq<Pair>) returns (out: string)
    ensures out == Rendered(template, pairs)
  {
    out := "";
    var rest := template;
    ghost var total := Rendered(template, pairs);
    assert out + total == total;
    while FindPair('{', rest).Some?
      invariant out + Rendered(rest, pairs) == total
      decreases |rest|
    {
      var start := FindPair('{', rest).value;
      var afterOpen := rest[start + 2..];
      var end := FindPair('}', afterOpen);
      match end {
        case Some(e) =>
          RenderTurn(rest, start, afterOpen, e, afterOpen[e + 2..], pairs, out, total);
          var behind := start + e + 4;
          SlotIsCopied(rest, start, afterOpen, e, behind);
          out := out + rest[..start];
          var key := Trim(afterOpen[..e]);
          var piece := match Lookup(pairs, key) case Some(value) => value case None => rest[start..behind];
          assert piece == FillSlot(afterOpen[..e], pairs);
          out := out + piece;
          rest := afterOpen[e + 2..];
        case None =>
          RenderUnclosed(rest, start, pairs, out, total);
          out := out + rest[..start];
          out := out + rest[start..];
          rest := "";
      }
    }
    RenderLast(rest, pairs);
    out := out + rest;
  }

  // ---- Nothing is lost, values are not looked at -------------------------------------------

  lemma {:induction false} SlotsPartition(t: string)
    ensures FirstSlot(t).Some? ==>
              var cut := FirstSlot(t).value;
              t == cut.before + (SlotText(cut.inner) + cut.after) && Free('{', cut.before) && Free('}', cut.inner)
  {
    if FirstSlot(t).Some? {
      var o := FindPair('{', t).value;
      var tail := t[o + 2..];
      FoundIsFirst('{', t);
      FoundIsFirst('}', tail);
      SlotRejoins(t, o, tail, FindPair('}', tail).value);
    }
  }

  lemma {:induction false} SlotRejoins(t: string, o: nat, tail: string, e: nat)
    requires o + 2 <= |t| && t[o] == t[o + 1] == '{' && tail == t[o + 2..]
    requires e + 2 <= |tail| && tail[e] == tail[e + 1] == '}'
    ensures t == t[..o] + (SlotText(tail[..e]) + tail[e + 2..])
  {
    assert tail == tail[..e] + "}}" + tail[e + 2..];
    assert t == t[..o] + "{{" + tail;
  }

  // Without values a template is rendered as itself.
  lemma {:induction false} RenderNothing(t: string)
    ensures Rendered(t, []) == t
    decreases |t|
  {
    RenderUnfolds(t, []);
    SlotsPartition(t);
    if FirstSlot(t).Some? {
      RenderNothing(FirstSlot(t).value.after);
    }
  }

  // A piece of the output: text of the template, or the value of the pair with a given number.
  datatype Piece = FromTemplate(text: string) | FromPair(index: nat)

  function IndexOf(keys: seq<string>, key: string): (r: Option<nat>)
    ensures r.Some? ==> r.value < |keys|
  {
    if keys == [] then None
    else if keys[0] == key then Some(0)
    else match IndexOf(keys[1..], key) case None => None case Some(i) => Some(i + 1)
  }

  function PieceOf(part: Part, keys: seq<string>): (p: Piece)
    ensures p.FromPair? ==> p.index < |keys|
  {
    match part
    case Lit(text) => FromTemplate(text)
    case Slot(inner) =>
      match IndexOf(keys, Trim(inner))
      case None => FromTemplate(SlotText(inner))
      case Some(i) => FromPair(i)
  }

  // The skeleton of a template depends on its text and on the keys alone.
  function Skeleton(parts: seq<Part>, keys: seq<string>): (ps: seq<Piece>)
    ensures forall p :: p in ps && p.FromPair? ==> p.index < |keys|
  {
    if parts == [] then [] else [PieceOf(parts[0], keys)] + Skeleton(parts[1..], keys)
  }

  function PutValues(ps: seq<Piece>, values: seq<string>): string
    requires forall p :: p in ps && p.FromPair? ==> p.index < |values|
  {
    if ps == [] then "" else
      (if ps[0].FromPair? then values[ps[0].index] else ps[0].text) + PutValues(ps[1..], values)
  }

  function Zip(keys: seq<string>, values: seq<string>): seq<Pair>
    requires |keys| == |values|
  {
    if keys == [] then [] else [Pair(keys[0], values[0])] + Zip(keys[1..], values[1..])
  }

  lemma {:induction false} LookupZip(keys: seq<string>, values: seq<string>, key: string)
    requires |keys| == |values|
    ensures Lookup(Zip(keys, values), key) ==
            match IndexOf(keys, key) case None => None case Some(i) => Some(values[i])
  {
    if keys != [] {
      LookupZip(keys[1..], values[1..], key);
      assert Zip(keys, values)[1..] == Zip(keys[1..], values[1..]);
    }
  }

  // Values are never rescanned: whatever they hold, the output is the skeleton with the values put in.
  lemma {:induction false} ValuesAreNotRescanned(parts: seq<Part>, keys: seq<string>, values: seq<string>)
    requires |keys| == |values|
    ensures FillAll(parts, Zip(keys, values)) == PutValues(Skeleton(parts, keys), values)
  {
    if parts != [] {
      ValuesAreNotRescanned(parts[1..], keys, values);
      if parts[0].Slot? {
        LookupZip(keys, values, Trim(parts[0].inner));
      }
      assert Skeleton(parts, keys)[1..] == Skeleton(parts[1..], keys);
    }
  }

  // ---- Slots as they are written -----------------------------------------------------------

  // A pair of braces, or a brace that may begin one with what follows.
  lemma {:induction false} FreeMeansNoPair(c: char, s: string)
    ensures Free(c, s) <==>
            (forall i :: 0 <= i < |s| - 1 ==> !(s[i] == c && s[i + 1] == c)) && (s != "" ==> s[|s| - 1] != c)
    ensures FindPair(c, s).None? <==> forall i :: 0 <= i < |s| - 1 ==> !(s[i] == c && s[i + 1] == c)
  {
    if i :| 0 <= i < |s| - 1 && s[i] == c && s[i + 1] == c {
      PairExists(c, s, i);
    }
    var all := s + [c];
    assert forall i :: 0 <= i < |s| ==> all[i] == s[i];
    if FindPair(c, all).Some? {
      var i := FindPair(c, all).value;
      assert all[i] == c && all[i + 1] == c;
      assert i < |s| - 1 ==> s[i] == c && s[i + 1] == c;
    } else {
      forall i | 0 <= i < |s| - 1 ensures !(s[i] == c && s[i + 1] == c) {
        if s[i] == c && s[i + 1] == c {
          PairExists(c, all, i);
        }
      }
      if s != "" && s[|s| - 1] == c {
        PairExists(c, all, |s| - 1);
      }
    }
  }

  // A slot is replaced by the value of the first pair with its key, white space around the key or not, and
  // is left as it is when there is none.
  lemma {:induction false} SlotIsReplaced(before: string, inner: string, after: string, pairs: seq<Pair>)
    requires Free('{', before) && Free('}', inner)
    ensures var t := before + ("{{" + inner + "}}" + after);
            var key, rest := Trim(inner), Rendered(after, pairs);
            && (forall i :: FirstPair(pairs, key, i) ==> Rendered(t, pairs) == before + (pairs[i].value + rest))
            && ((forall p :: p in pairs ==> p.key != key) ==>
                  Rendered(t, pairs) == before + ("{{" + inner + "}}" + rest))
  {
    var key := Trim(inner);
    ConcatAssoc("{{" + inner, "}}", after);
    ConcatAssoc("{{", inner, "}}");
    RenderFirstSlot(before, inner, after, pairs);
    forall i | FirstPair(pairs, key, i) ensures Lookup(pairs, key) == Some(pairs[i].value) {
      FirstPairIsFound(pairs, key, i);
    }
    LookupIsPair(pairs, key);
  }

  // Text without a slot stays as it is, also behind an opening pair that is never closed.
  lemma {:induction false} NoSlotStays(before: string, open: string, pairs: seq<Pair>)
    requires Free('{', before) && FindPair('}', open).None?
    ensures Rendered(before, pairs) == before
    ensures Rendered(before + ("{{" + open), pairs) == before + ("{{" + open)
  {
    var t := "{{" + open;
    FindBehindFree('{', before, "");
    assert before + "" == before;
    RenderLast(before, pairs);
    FoundAtOnce('{', t);
    assert t[2..] == open;
    RenderLast(t, pairs);
    RenderBehind(before, t, pairs);
  }

  predicate FirstPair(pairs: seq<Pair>, key: string, i: int) {
    0 <= i < |pairs| && pairs[i].key == key && forall j :: 0 <= j < i ==> pairs[j].key != key
  }

  lemma {:induction false} FirstPairIsFound(pairs: seq<Pair>, key: string, i: int)
    requires FirstPair(pairs, key, i)
    ensures Lookup(pairs, key) == Some(pairs[i].value)
    decreases i
  {
    if i > 0 {
      assert pairs[0].key != key;
      FirstPairIsFound(pairs[1..], key, i - 1);
    }
  }

  // ---- Rendering in stages -----------------------------------------------------------------

  lemma {:induction false} FoundBehindFree(c: char, a: string, s: string, o: nat, o': nat)
    requires Free(c, a) && FindPair(c, s) == Some(o) && o' == |a| + o
    ensures FindPair(c, a + s) == Some(o')
  {
    FindBehindFree(c, a, s);
  }

  lemma {:induction false} FoundAtOnce(c: char, s: string)
    requires |s| >= 2 && s[0] == s[1] == c
    ensures FindPair(c, s) == Some(0)
  {
  }

  lemma {:induction false} ParseBehind(before: string, inner: string, after: string)
    requires Free('{', before) && Free('}', inner)
    ensures FirstSlot(before + (SlotText(inner) + after)) == Some(Cut(before, inner, after))
  {
    var slot, end := SlotText(inner) + after, "}}" + after;
    var t, tail, o, e := before + slot, inner + end, |before|, |inner|;
    FoundBehind('{', before, slot, o);
    FoundBehind('}', inner, end, e);
    SlotSlices(before, inner, after, t, tail, o, e);
    FirstSlotIs(t, o, tail, e, Cut(before, inner, after));
  }

  lemma {:induction false} FoundBehind(c: char, a: string, s: string, o: nat)
    requires Free(c, a) && |s| >= 2 && s[0] == s[1] == c && o == |a|
    ensures FindPair(c, a + s) == Some(o)
  {
    FoundAtOnce(c, s);
    FoundBehindFree(c, a, s, 0, o);
  }

  lemma {:induction false} SlotSlices(
    before: string, inner: string, after: string, t: string, tail: string, o: nat, e: nat)
    requires t == before + (SlotText(inner) + after) && tail == inner + ("}}" + after)
    requires o == |before| && e == |inner|
    ensures o + 2 <= |t| && t[..o] == before && t[o + 2..] == tail
    ensures e + 2 <= |tail| && tail[..e] == inner && tail[e + 2..] == after
  {
  }

  lemma {:induction false} ShiftSlices(a: string, s: string, o: nat, o': nat, tail: string)
    requires o + 2 <= |s| && o' == |a| + o && tail == s[o + 2..]
    ensures (a + s)[o' + 2..] == tail && (a + s)[..o'] == a + s[..o]
  {
  }

  lemma {:induction false} FirstSlotParts(t: string, cut: Cut) returns (o: nat, tail: string, e: nat)
    requires FirstSlot(t) == Some(cut)
    ensures FindPair('{', t) == Some(o) && tail == t[o + 2..] && FindPair('}', tail) == Some(e)
    ensures cut == Cut(t[..o], tail[..e], tail[e + 2..])
  {
    o := FindPair('{', t).value;
    tail := t[o + 2..];
    e := FindPair('}', tail).value;
  }

  lemma {:induction false} SlotBehind(a: string, s: string, cut: Cut)
    requires Free('{', a) && FirstSlot(s) == Some(cut)
    ensures FirstSlot(a + s) == Some(Cut(a + cut.before, cut.inner, cut.after))
  {
    var o, tail, e := FirstSlotParts(s, cut);
    var o' := |a| + o;
    FoundBehindFree('{', a, s, o, o');
    ShiftSlices(a, s, o, o', tail);
    FirstSlotIs(a + s, o', tail, e, Cut((a + s)[..o'], tail[..e], tail[e + 2..]));
  }

  lemma {:induction false} NoSlotBehind(a: string, s: string)
    requires Free('{', a) && FirstSlot(s) == None
    ensures FirstSlot(a + s) == None
  {
    if FindPair('{', s).None? {
      NoPairBehind('{', a, s);
    } else {
      UnclosedBehind(a, s, FindPair('{', s).value);
    }
  }

  lemma {:induction false} NoPairBehind(c: char, a: string, s: string)
    requires Free(c, a) && FindPair(c, s) == None
    ensures FindPair(c, a + s) == None
  {
    FindBehindFree(c, a, s);
  }

  lemma {:induction false} UnclosedBehind(a: string, s: string, o: nat)
    requires Free('{', a) && FindPair('{', s) == Some(o) && FindPair('}', s[o + 2..]).None?
    ensures FirstSlot(a + s) == None
  {
    var o', tail := |a| + o, s[o + 2..];
    FoundBehindFree('{', a, s, o, o');
    ShiftSlices(a, s, o, o', tail);
    NoFirstSlot(a + s, o', tail);
  }

  // Text that neither has nor may begin an opening brace pair is passed through.
  lemma {:induction false} RenderBehind(a: string, s: string, pairs: seq<Pair>)
    requires Free('{', a)
    ensures Rendered(a + s, pairs) == a + Rendered(s, pairs)
  {
    RenderUnfolds(s, pairs);
    RenderUnfolds(a + s, pairs);
    if FirstSlot(s).None? {
      NoSlotBehind(a, s);
    } else {
      var cut := FirstSlot(s).value;
      SlotBehind(a, s, cut);
      ConcatAssoc(a, cut.before, FillSlot(cut.inner, pairs) + Rendered(cut.after, pairs));
    }
  }

  lemma {:induction false} LookupAppend(p1: seq<Pair>, p2: seq<Pair>, key: string)
    ensures Lookup(p1 + p2, key) == if Lookup(p1, key).Some? then Lookup(p1, key) else Lookup(p2, key)
  {
    if p1 == [] {
      assert p1 + p2 == p2;
    } else {
      assert (p1 + p2)[1..] == p1[1..] + p2;
      LookupAppend(p1[1..], p2, key);
    }
  }

  lemma {:induction false} LookupIsPair(pairs: seq<Pair>, key: string)
    ensures Lookup(pairs, key).Some? ==> Pair(key, Lookup(pairs, key).value) in pairs
  {
    if pairs != [] {
      assert pairs[0] in pairs && forall p :: p in pairs[1..] ==> p in pairs;
      if pairs[0].key != key {
        LookupIsPair(pairs[1..], key);
      }
    }
  }

  // A key that a slot can name.
  predicate IsKey(key: string) {
    Trim(key) == key && FindPair('}', key).None?
  }

  lemma {:induction false} SlotNamesKey(inner: string)
    requires Free('}', inner)
    ensures IsKey(Trim(inner))
  {
    if !IsBlank(inner) {
      var before, key, after := TrimParts(IsWhitespace, inner);
      TrimKeepsAll(IsWhitespace, key);
      NoPairInside('}', before, key, after);
    }
  }

  lemma {:induction false} NoPairInside(c: char, before: string, s: string, after: string)
    requires Free(c, before + s + after)
    ensures FindPair(c, s).None?
  {
    if FindPair(c, s).Some? {
      var i, all := FindPair(c, s).value, before + s + after + [c];
      assert all[|before| + i] == s[i] && all[|before| + i + 1] == s[i + 1];
      PairExists(c, all, |before| + i);
    }
  }

  lemma {:induction false} TrimBlankBehind(key: string)
    ensures Trim(key + " ") == Trim(key)
  {
    TrimAround(IsWhitespace, "", key, " ");
    assert "" + key + " " == key + " ";
  }

  // A blank keeps a closing brace at the key's end apart from the braces of the slot.
  lemma {:induction false} KeyHasSlot(key: string)
    requires IsKey(key)
    ensures Free('}', key + " ") && Trim(key + " ") == key
  {
    TrimBlankBehind(key);
    var s := key + " " + ['}'];
    if FindPair('}', s).Some? {
      var i := FindPair('}', s).value;
      assert s[i] == s[i + 1] == '}';
      assert s[|key|] == ' ' && i + 1 < |key|;
      PairExists('}', key, i);
    }
  }

  lemma {:induction false} KeysAreWhatSlotsName(key: string)
    ensures IsKey(key) <==> exists inner :: Free('}', inner) && Trim(inner) == key
  {
    if IsKey(key) {
      KeyHasSlot(key);
    }
    if inner :| Free('}', inner) && Trim(inner) == key {
      SlotNamesKey(inner);
    }
  }

  // No value that some slot can reach has a pair of opening braces or ends with one.
  predicate ReachesOnlyFree(pairs: seq<Pair>) {
    forall p :: p in pairs && IsKey(p.key) && Lookup(pairs, p.key) == Some(p.value) ==> Free('{', p.value)
  }

  // Then rendering in two stages is rendering at once.
  lemma {:induction false} StagesCompose(t: string, p1: seq<Pair>, p2: seq<Pair>)
    requires ReachesOnlyFree(p1)
    ensures Rendered(Rendered(t, p1), p2) == Rendered(t, p1 + p2)
    decreases |t|
  {
    RenderUnfolds(t, p1);
    RenderUnfolds(t, p1 + p2);
    if FirstSlot(t).None? {
      RenderUnfolds(t, p2);
    } else {
      var Cut(before, inner, after) := FirstSlot(t).value;
      SlotsPartition(t);
      StagesCompose(after, p1, p2);
      StagesComposeAtSlot(before, inner, Rendered(after, p1), p1, p2);
    }
  }

  lemma {:induction false} StagesComposeAtSlot(
    before: string, inner: string, rest: string, p1: seq<Pair>, p2: seq<Pair>)
    requires Free('{', before) && Free('}', inner) && ReachesOnlyFree(p1)
    ensures Rendered(before + (FillSlot(inner, p1) + rest), p2) ==
            before + (FillSlot(inner, p1 + p2) + Rendered(rest, p2))
  {
    LookupAppend(p1, p2, Trim(inner));
    if Lookup(p1, Trim(inner)).Some? {
      var value := Lookup(p1, Trim(inner)).value;
      SlotNamesKey(inner);
      LookupIsPair(p1, Trim(inner));
      assert Pair(Trim(inner), value) in p1;
      RenderBehind(value, rest, p2);
      RenderBehind(before, value + rest, p2);
    } else {
      RenderFirstSlot(before, inner, rest, p2);
    }
  }

  ghost predicate ComposesAlways(p1: seq<Pair>) {
    forall t, p2 :: Rendered(Rendered(t, p1), p2) == Rendered(t, p1 + p2)
  }

  // The condition is exact, for every list of pairs.
  lemma {:induction false} StagesComposeExactly(p1: seq<Pair>)
    ensures ComposesAlways(p1) <==> ReachesOnlyFree(p1)
  {
    if ReachesOnlyFree(p1) {
      forall t, p2 ensures Rendered(Rendered(t, p1), p2) == Rendered(t, p1 + p2) {
        StagesCompose(t, p1, p2);
      }
    } else {
      var p :| p in p1 && IsKey(p.key) && Lookup(p1, p.key) == Some(p.value) && !Free('{', p.value);
      var t, p2 := UnfreeValueBreaksStages(p1, p.key, p.value);
    }
  }

  lemma {:induction false} UnfreeValueBreaksStages(p1: seq<Pair>, key: string, value: string)
    returns (t: string, p2: seq<Pair>)
    requires IsKey(key) && Lookup(p1, key) == Some(value) && !Free('{', value)
    ensures Rendered(Rendered(t, p1), p2) != Rendered(t, p1 + p2)
  {
    t := "" + (SlotText(key + " ") + "{}}");
    var o := value + "{}}";
    RenderSlotWithEnd(key, value, p1);
    var cut := SlotAppears(value);
    p2 := [Pair(Trim(cut.inner), o + "x")];
    LookupAppend(p1, p2, key);
    RenderSlotWithEnd(key, value, p1 + p2);
    RenderUnfolds(o, p2);
  }

  lemma {:induction false} RenderSlotWithEnd(key: string, value: string, pairs: seq<Pair>)
    requires IsKey(key) && Lookup(pairs, key) == Some(value)
    ensures Rendered("" + (SlotText(key + " ") + "{}}"), pairs) == value + "{}}"
  {
    KeyHasSlot(key);
    RenderLoneEnd(pairs);
    RenderFirstSlot("", key + " ", "{}}", pairs);
    NothingInFront(value + "{}}");
  }

  lemma {:induction false} RenderFirstSlot(before: string, inner: string, after: string, pairs: seq<Pair>)
    requires Free('{', before) && Free('}', inner)
    ensures Rendered(before + (SlotText(inner) + after), pairs) ==
            before + (FillSlot(inner, pairs) + Rendered(after, pairs))
  {
    ParseBehind(before, inner, after);
    RenderUnfolds(before + (SlotText(inner) + after), pairs);
  }

  lemma {:induction false} NothingInFront(s: string)
    ensures "" + s == s
  {
  }

  lemma {:induction false} RenderLoneEnd(pairs: seq<Pair>)
    ensures Free('{', "") && Rendered("{}}", pairs) == "{}}"
  {
    assert FindPair('{', "{}}"[1..]) == None;
    RenderUnfolds("{}}", pairs);
  }

  // Put before "{}}", an unfree value makes a slot.
  lemma {:induction false} SlotAppears(value: string) returns (cut: Cut)
    requires !Free('{', value)
    ensures FirstSlot(value + "{}}") == Some(cut)
  {
    var o := value + "{}}";
    var i := FindPair('{', value + ['{']).value;
    PairStays('{', value + ['{'], "}}");
    assert o == value + ['{'] + "}}";
    var tail := o[i + 2..];
    var j := |tail| - 2;
    assert tail[j] == o[|o| - 2] && tail[j + 1] == o[|o| - 1];
    PairExists('}', tail, j);
    cut := FirstSlot(o).value;
  }

  lemma {:induction false} PairStays(c: char, s: string, t: string)
    requires FindPair(c, s).Some?
    ensures FindPair(c, s + t) == FindPair(c, s)
  {
    assert (s + t)[1..] == s[1..] + t;
    if !(s[0] == c && s[1] == c) {
      PairStays(c, s[1..], t);
    }
  }

  lemma {:induction false} PairExists(c: char, s: string, i: nat)
    requires i + 2 <= |s| && s[i] == s[i + 1] == c
    ensures FindPair(c, s).Some?
  {
    if i > 0 {
      PairExists(c, s[1..], i - 1);
    }
  }
}
