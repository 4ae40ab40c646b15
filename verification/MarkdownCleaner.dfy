// Cleaning converted markdown (crates/kenjaku-ingest/src/crawler.rs, clean_markdown and
// is_artifact_line).

// Lists of lines: noise is dropped, of blank lines in a row the first is kept. `kind` tells the lines
// apart.
module Tidying {
  import opened Text
  import opened LineFeeds

  datatype Kind = Noise | Blank | Content

  type Kinds = string -> Kind

  function Tidy(kind: Kinds, lines: seq<string>, afterBlank: bool): seq<string>
    decreases |lines|
  {
    if lines == [] then [] else
      match kind(lines[0])
      case Noise => Tidy(kind, lines[1..], afterBlank)
      case Blank => (if afterBlank then [] else [""]) + Tidy(kind, lines[1..], true)
      case Content => [lines[0]] + Tidy(kind, lines[1..], false)
  }

  // No noise, and never two blank lines in a row.
  predicate IsTidy(kind: Kinds, lines: seq<string>, afterBlank: bool)
    decreases |lines|
  {
    lines == [] || (
      && kind(lines[0]) != Noise
      && (kind(lines[0]) == Blank ==> lines[0] == "" && !afterBlank)
      && IsTidy(kind, lines[1..], kind(lines[0]) == Blank))
  }

  // A content line, and whether a blank line parts it from the content before it.
  datatype Entry = Entry(text: string, parted: bool)

  // The content lines in order; at the start, `parted` is whether a blank line came before.
  function Outline(kind: Kinds, lines: seq<string>, parted: bool): seq<Entry>
    decreases |lines|
  {
    if lines == [] then [] else
      match kind(lines[0])
      case Noise => Outline(kind, lines[1..], parted)
      case Blank => Outline(kind, lines[1..], true)
      case Content => [Entry(lines[0], parted)] + Outline(kind, lines[1..], false)
  }

  // The lines of an outline: one blank line wherever content is parted, and none elsewhere.
  function Lay(entries: seq<Entry>): seq<string> {
    if entries == [] then [] else [entries[0].text] + LayMore(entries[1..])
  }

  function LayMore(entries: seq<Entry>): seq<string> {
    if entries == [] then [] else
      (if entries[0].parted then [""] else []) + ([entries[0].text] + LayMore(entries[1..]))
  }

  lemma {:induction false} TidyCons(kind: Kinds, line: string, rest: seq<string>)
    ensures forall parted :: Outline(kind, [line] + rest, parted) ==
              match kind(line)
              case Noise => Outline(kind, rest, parted)
              case Blank => Outline(kind, rest, true)
              case Content => [Entry(line, parted)] + Outline(kind, rest, false)
    ensures forall afterBlank :: IsTidy(kind, [line] + rest, afterBlank) <==>
              && kind(line) != Noise && (kind(line) == Blank ==> line == "" && !afterBlank)
              && IsTidy(kind, rest, kind(line) == Blank)
  {
    assert ([line] + rest)[1..] == rest;
  }

  // Tidying makes tidy, and keeps the content and the breaks in it.
  lemma {:induction false} TidyIsTidy(kind: Kinds, lines: seq<string>, afterBlank: bool, parted: bool)
    requires kind("") == Blank && (afterBlank ==> parted)
    ensures IsTidy(kind, Tidy(kind, lines, afterBlank), afterBlank)
    ensures Outline(kind, Tidy(kind, lines, afterBlank), parted) == Outline(kind, lines, parted)
    ensures forall l :: l in Tidy(kind, lines, afterBlank) ==> l == "" || l in lines
    decreases |lines|
  {
    if lines != [] {
      var line, rest := lines[0], lines[1..];
      match kind(line)
      case Noise =>
        TidyIsTidy(kind, rest, afterBlank, parted);
      case Blank =>
        var more := Tidy(kind, rest, true);
        TidyIsTidy(kind, rest, true, true);
        TidyCons(kind, "", more);
        assert [] + more == more;
      case Content =>
        TidyIsTidy(kind, rest, false, false);
        TidyCons(kind, line, Tidy(kind, rest, false));
    }
  }

  // Tidy lines that end with content are those of their outline.
  lemma {:induction false} TidyIsLaid(kind: Kinds, lines: seq<string>, afterBlank: bool)
    requires IsTidy(kind, lines, afterBlank) && (lines != [] ==> kind(lines[|lines| - 1]) == Content)
    ensures LayMore(Outline(kind, lines, afterBlank)) == (if afterBlank && lines != [] then [""] else []) + lines
    decreases |lines|
  {
    if lines != [] {
      var line, rest := lines[0], lines[1..];
      assert lines == [line] + rest;
      TidyIsLaid(kind, rest, kind(line) == Blank);
      if kind(line) == Content {
        LayEntry(Entry(line, afterBlank), Outline(kind, rest, false));
      }
    }
  }

  lemma {:induction false} LayEntry(e: Entry, rest: seq<Entry>)
    ensures LayMore([e] + rest) == (if e.parted then [""] else []) + ([e.text] + LayMore(rest))
    ensures Lay([e] + rest) == [e.text] + LayMore(rest)
  {
    assert ([e] + rest)[1..] == rest;
  }

  lemma {:induction false} IsTidyAnyway(kind: Kinds, lines: seq<string>)
    requires IsTidy(kind, lines, true)
    ensures IsTidy(kind, lines, false)
  {
  }

  // What is tidy stays as it is.
  lemma {:induction false} TidyStays(kind: Kinds, lines: seq<string>, afterBlank: bool)
    requires IsTidy(kind, lines, afterBlank)
    ensures Tidy(kind, lines, afterBlank) == lines
    decreases |lines|
  {
    if lines != [] {
      TidyStays(kind, lines[1..], kind(lines[0]) == Blank);
      assert [lines[0]] + lines[1..] == lines;
    }
  }

  lemma {:induction false} FrontIsTidy(kind: Kinds, front: seq<string>, last: string, afterBlank: bool, parted: bool)
    requires IsTidy(kind, front + [last], afterBlank)
    ensures IsTidy(kind, front, afterBlank)
    ensures kind(last) == Blank ==> Outline(kind, front + [last], parted) == Outline(kind, front, parted)
    decreases |front|
  {
    if front == [] {
      assert [] + [last] == [last] && [last][1..] == [];
    } else {
      var line, rest := front[0], front[1..];
      assert (front + [last])[1..] == rest + [last];
      FrontIsTidy(kind, rest, last, kind(line) == Blank, kind(line) == Blank);
    }
  }

  // ---- Text --------------------------------------------------------------------------------

  function Terminated(lines: seq<string>): string {
    if lines == [] then "" else lines[0] + "\n" + Terminated(lines[1..])
  }

  function TextOf(lines: seq<string>): string {
    if lines == [] then "" else Join(lines)
  }

  // `rest` of the lines is still to be written.
  ghost predicate Halfway(kind: Kinds, rest: seq<string>, afterBlank: bool, out: string, total: string) {
    out + Terminated(Tidy(kind, rest, afterBlank)) == total
  }

  // One turn of a loop that writes the tidy lines.
  lemma {:induction false} WriteLine(
    kind: Kinds, line: string, rest: seq<string>, afterBlank: bool, out: string, total: string)
    requires Halfway(kind, [line] + rest, afterBlank, out, total)
    ensures match kind(line)
            case Noise => Halfway(kind, rest, afterBlank, out, total)
            case Blank => Halfway(kind, rest, true, if afterBlank then out else out + "\n", total)
            case Content => Halfway(kind, rest, false, out + line + "\n", total)
  {
    assert ([line] + rest)[1..] == rest;
    match kind(line)
    case Noise =>
    case Blank =>
      var more := Tidy(kind, rest, true);
      assert [] + more == more && ([""] + more)[1..] == more && "" + "\n" == "\n";
      ConcatAssoc(out, "\n", Terminated(more));
    case Content =>
      var more := Tidy(kind, rest, false);
      assert ([line] + more)[1..] == more;
      ConcatAssoc(out, line + "\n", Terminated(more));
      ConcatAssoc(out, line, "\n");
  }

  lemma {:induction false} TerminatedIsJoined(lines: seq<string>)
    requires lines != []
    ensures Terminated(lines) == Join(lines) + "\n"
  {
    if |lines| > 1 {
      TerminatedIsJoined(lines[1..]);
      ConcatAssoc(lines[0] + "\n", Join(lines[1..]), "\n");
    } else {
      assert Terminated(lines[1..]) == "";
      assert lines[0] + "\n" + "" == lines[0] + "\n";
    }
  }

  lemma {:induction false} TerminatedAppend(lines: seq<string>, last: string)
    ensures Terminated(lines + [last]) == Terminated(lines) + (last + "\n")
  {
    if lines == [] {
      assert [] + [last] == [last] && [last][1..] == [];
      assert last + "\n" + "" == last + "\n";
      assert "" + (last + "\n") == last + "\n";
    } else {
      assert (lines + [last])[1..] == lines[1..] + [last];
      TerminatedAppend(lines[1..], last);
      ConcatAssoc(lines[0] + "\n", Terminated(lines[1..]), last + "\n");
    }
  }

  lemma {:induction false} JoinEnds(lines: seq<string>)
    requires lines != [] && lines[0] != "" && lines[|lines| - 1] != ""
    ensures Join(lines) != "" && Join(lines)[0] == lines[0][0]
    ensures var last := lines[|lines| - 1]; Join(lines)[|Join(lines)| - 1] == last[|last| - 1]
    decreases |lines|
  {
    if |lines| > 1 {
      JoinLast(lines[1..]);
    }
  }

  lemma {:induction false} JoinLast(lines: seq<string>)
    requires lines != [] && lines[|lines| - 1] != ""
    ensures var last := lines[|lines| - 1]; Join(lines) != "" && Join(lines)[|Join(lines)| - 1] == last[|last| - 1]
  {
    if |lines| > 1 {
      JoinLast(lines[1..]);
    }
  }

  lemma {:induction false} JoinIndented(lines: seq<string>, clean: seq<string>, indent: string)
    requires lines != [] && clean != [] && lines[1..] == clean[1..] && lines[0] == indent + clean[0]
    ensures Join(lines) == indent + Join(clean)
  {
    assert |lines| == 1 + |lines[1..]| == |clean|;
    if |lines| > 1 {
      ConcatAssoc(indent, clean[0], "\n" + Join(clean[1..]));
      ConcatAssoc(lines[0], "\n", Join(lines[1..]));
      ConcatAssoc(clean[0], "\n", Join(clean[1..]));
    }
  }

  lemma {:induction false} SplitJoined(lines: seq<string>)
    requires lines != [] && forall l :: l in lines ==> OneLine(l)
    ensures Split(Join(lines)) == lines
  {
    if |lines| == 1 {
      SplitOne(lines[0]);
    } else {
      assert lines[0] in lines && forall l :: l in lines[1..] ==> l in lines;
      SplitJoined(lines[1..]);
      SplitLine(lines[0], Join(lines[1..]));
      assert [lines[0]] + lines[1..] == lines;
    }
  }

  lemma {:induction false} SplitOne(line: string)
    requires OneLine(line)
    ensures Split(line) == [line]
  {
    if line != "" {
      SplitOne(line[1..]);
      assert [line[0]] + line[1..] == line;
    }
  }

  // ---- Clean texts -------------------------------------------------------------------------

  predicate IsLine(space: char -> bool, line: string) {
    OneLine(line) && TrimEndBy(space, line) == line
  }

  // No noise, no white space at a line's end, never two blank lines in a row; the text starts and ends
  // with something to read.
  ghost predicate AreCleanLines(space: char -> bool, kind: Kinds, lines: seq<string>) {
    && IsTidy(kind, lines, true) && (forall l :: l in lines ==> IsLine(space, l))
    && (lines != [] ==> TrimBy(space, lines[0]) == lines[0] && lines[|lines| - 1] != "")
  }

  // A blank line is empty; what a line is does not depend on the white space around it.
  ghost predicate Fits(space: char -> bool, kind: Kinds, line: string) {
    && IsLine(space, line) && (kind(line) == Blank <==> line == "")
    && kind(TrimBy(space, line)) == kind(line)
  }

  ghost predicate AllFit(space: char -> bool, kind: Kinds, lines: seq<string>) {
    forall l :: l in lines ==> Fits(space, kind, l)
  }

  // The indentation of the first line is lost.
  function Unindent(space: char -> bool, entries: seq<Entry>): seq<Entry> {
    if entries == [] then [] else [Entry(TrimBy(space, entries[0].text), entries[0].parted)] + entries[1..]
  }

  lemma {:induction false} LineEnds(space: char -> bool, line: string)
    requires IsLine(space, line) && line != ""
    ensures !space(line[|line| - 1])
  {
    TrimEndTwice(space, line);
  }

  lemma {:induction false} CleanTextEnds(space: char -> bool, kind: Kinds, lines: seq<string>)
    requires AreCleanLines(space, kind, lines) && lines != [] && lines[0] != ""
    ensures var s := Join(lines); s != "" && !space(s[0]) && !space(s[|s| - 1])
  {
    assert lines[0] in lines && lines[|lines| - 1] in lines;
    LineEnds(space, lines[|lines| - 1]);
    JoinEnds(lines);
  }

  // A line is its indentation and what trimming leaves of it.
  lemma {:induction false} LineParts(space: char -> bool, line: string) returns (indent: string, core: string)
    requires IsLine(space, line) && line != ""
    ensures line == indent + core && core == TrimBy(space, line) && AllIn(space, indent)
    ensures core != "" && IsLine(space, core) && TrimBy(space, core) == core
  {
    var after;
    TrimEndTwice(space, line);
    indent, core, after := TrimParts(space, line);
    TrimKeepsAll(space, core);
    PartOfOneLine(indent, core);
  }

  lemma {:induction false} PartOfOneLine(a: string, b: string)
    requires OneLine(a + b)
    ensures OneLine(b)
  {
    assert forall k :: 0 <= k < |b| ==> b[k] == (a + b)[|a| + k];
  }

  lemma {:induction false} Unindented(
    space: char -> bool, kind: Kinds, first: string, rest: seq<string>, afterBlank: bool)
    returns (clean: seq<string>)
    requires IsTidy(kind, [first] + rest, afterBlank) && AllFit(space, kind, [first] + rest) && space('\n')
    requires first != "" && (rest != [] ==> rest[|rest| - 1] != "")
    ensures AreCleanLines(space, kind, clean) && TrimBy(space, Terminated([first] + rest)) == TextOf(clean)
    ensures Outline(kind, clean, true) == Unindent(space, Outline(kind, [first] + rest, true))
  {
    FirstAndRest(space, kind, first, rest, afterBlank);
    var indent, core := LineParts(space, first);
    clean := [core] + rest;
    CoreIsClean(space, kind, core, rest);
    OutlineOfCore(space, kind, first, core, rest);
    IndentedTrims(space, kind, first, core, rest, indent);
  }

  lemma {:induction false} FirstAndRest(
    space: char -> bool, kind: Kinds, first: string, rest: seq<string>, afterBlank: bool)
    requires IsTidy(kind, [first] + rest, afterBlank) && AllFit(space, kind, [first] + rest) && first != ""
    ensures Fits(space, kind, first) && kind(first) == Content && IsTidy(kind, rest, false)
    ensures forall l :: l in rest ==> IsLine(space, l)
  {
    TidyCons(kind, first, rest);
    assert first in [first] + rest && forall l :: l in rest ==> l in [first] + rest && Fits(space, kind, l);
  }

  lemma {:induction false} CoreIsClean(space: char -> bool, kind: Kinds, core: string, rest: seq<string>)
    requires kind(core) == Content && IsLine(space, core) && TrimBy(space, core) == core && core != ""
    requires IsTidy(kind, rest, false) && (forall l :: l in rest ==> IsLine(space, l))
    requires rest != [] ==> rest[|rest| - 1] != ""
    ensures AreCleanLines(space, kind, [core] + rest)
  {
    TidyCons(kind, core, rest);
    assert forall l :: l in [core] + rest ==> l == core || l in rest;
  }

  lemma {:induction false} OutlineOfCore(
    space: char -> bool, kind: Kinds, first: string, core: string, rest: seq<string>)
    requires kind(first) == kind(core) == Content && core == TrimBy(space, first)
    ensures Outline(kind, [core] + rest, true) == Unindent(space, Outline(kind, [first] + rest, true))
  {
    TidyCons(kind, first, rest);
    TidyCons(kind, core, rest);
    assert ([Entry(first, true)] + Outline(kind, rest, false))[1..] == Outline(kind, rest, false);
  }

  lemma {:induction false} IndentedTrims(
    space: char -> bool, kind: Kinds, first: string, core: string, rest: seq<string>, indent: string)
    requires AreCleanLines(space, kind, [core] + rest) && AllIn(space, indent) && space('\n')
    requires core != "" && first == indent + core
    ensures TrimBy(space, Terminated([first] + rest)) == TextOf([core] + rest)
  {
    var lines, clean := [first] + rest, [core] + rest;
    assert lines[1..] == rest && clean[1..] == rest;
    CleanTextEnds(space, kind, clean);
    TerminatedIsJoined(lines);
    JoinIndented(lines, clean, indent);
    TrimKeeps(space, indent, Join(clean), "\n");
  }

  lemma {:induction false} LeadingBlank(space: char -> bool, rest: seq<string>)
    requires space('\n')
    ensures TrimBy(space, Terminated([""] + rest)) == TrimBy(space, Terminated(rest))
  {
    assert ([""] + rest)[1..] == rest;
    TrimAround(space, "\n", Terminated(rest), "");
    assert "" + "\n" + Terminated(rest) == "\n" + Terminated(rest) + "";
  }

  lemma {:induction false} TrailingBlank(space: char -> bool, front: seq<string>)
    requires space('\n')
    ensures TrimBy(space, Terminated(front + [""])) == TrimBy(space, Terminated(front))
  {
    TerminatedAppend(front, "");
    TrimAround(space, "", Terminated(front), "\n");
    assert Terminated(front) + ("" + "\n") == "" + Terminated(front) + "\n";
  }

  lemma {:induction false} CleanLinesTrim(space: char -> bool, kind: Kinds, lines: seq<string>)
    requires AreCleanLines(space, kind, lines) && space('\n') && (lines != [] ==> lines[0] != "")
    ensures TrimBy(space, Terminated(lines)) == TextOf(lines)
  {
    if lines != [] {
      TerminatedIsJoined(lines);
      CleanTextEnds(space, kind, lines);
      TrimKeeps(space, "", Join(lines), "\n");
      assert "" + Join(lines) + "\n" == Join(lines) + "\n";
    }
  }

  lemma {:induction false} LinesOfJoined(lines: seq<string>)
    requires lines != [] && forall l :: l in lines ==> OneLine(l)
    ensures Lines(Join(lines)) == lines[..|lines| - 1] && Unfinished(Join(lines)) == lines[|lines| - 1]
  {
    SplitJoined(lines);
  }

  // Trimming the written text takes off a blank line at either end and the first line's indentation.
  lemma {:induction false} TrimmedIsClean(space: char -> bool, kind: Kinds, lines: seq<string>, afterBlank: bool)
    returns (clean: seq<string>)
    requires IsTidy(kind, lines, afterBlank) && AllFit(space, kind, lines) && space('\n') && kind("") == Blank
    ensures AreCleanLines(space, kind, clean) && TrimBy(space, Terminated(lines)) == TextOf(clean)
    ensures Outline(kind, clean, true) == Unindent(space, Outline(kind, lines, true))
    decreases |lines|
  {
    if lines == [] {
      clean := [];
    } else if lines[0] == "" {
      var rest := lines[1..];
      assert lines == [""] + rest;
      TidyCons(kind, "", rest);
      clean := TrimmedIsClean(space, kind, rest, true);
      LeadingBlank(space, rest);
    } else if lines[|lines| - 1] == "" {
      var front := lines[..|lines| - 1];
      assert lines == front + [""];
      FrontIsTidy(kind, front, "", afterBlank, true);
      clean := TrimmedIsClean(space, kind, front, afterBlank);
      TrailingBlank(space, front);
    } else {
      assert lines == [lines[0]] + lines[1..];
      clean := Unindented(space, kind, lines[0], lines[1..], afterBlank);
    }
  }

  // Clean lines are those of their outline.
  lemma {:induction false} CleanIsLaid(space: char -> bool, kind: Kinds, lines: seq<string>)
    requires AreCleanLines(space, kind, lines) && forall l :: l in lines ==> (kind(l) == Blank ==> l == "")
    ensures lines == Lay(Outline(kind, lines, true))
  {
    if lines != [] {
      LastIsNoNoise(kind, lines, true);
      assert lines == [lines[0]] + lines[1..];
      LaidBehind(kind, lines[0], lines[1..]);
    }
  }

  lemma {:induction false} LaidBehind(kind: Kinds, line: string, rest: seq<string>)
    requires kind(line) == Content && IsTidy(kind, rest, false) && (rest != [] ==> kind(rest[|rest| - 1]) == Content)
    ensures [line] + rest == Lay(Outline(kind, [line] + rest, true))
  {
    TidyCons(kind, line, rest);
    TidyIsLaid(kind, rest, false);
    LayEntry(Entry(line, true), Outline(kind, rest, false));
    assert [] + rest == rest;
  }

  lemma {:induction false} LastIsNoNoise(kind: Kinds, lines: seq<string>, afterBlank: bool)
    requires lines != [] && IsTidy(kind, lines, afterBlank) && lines[|lines| - 1] != ""
    ensures kind(lines[|lines| - 1]) == Content
    decreases |lines|
  {
    if |lines| > 1 {
      LastIsNoNoise(kind, lines[1..], kind(lines[0]) == Blank);
    }
  }

  function Texts(entries: seq<Entry>): (r: seq<string>)
    ensures |r| == |entries| && forall i :: 0 <= i < |entries| ==> r[i] == entries[i].text
  {
    seq(|entries|, i requires 0 <= i < |entries| => entries[i].text)
  }

  lemma {:induction false} TextsCons(e: Entry, rest: seq<Entry>)
    ensures Texts([e] + rest) == [e.text] + Texts(rest)
  {
  }

  // What is picked from each line, one after the other.
  function Picked(pick: string -> seq<string>, lines: seq<string>): seq<string> {
    if lines == [] then [] else pick(lines[0]) + Picked(pick, lines[1..])
  }

  lemma {:induction false} PickedAppend(pick: string -> seq<string>, a: seq<string>, b: seq<string>)
    ensures Picked(pick, a + b) == Picked(pick, a) + Picked(pick, b)
  {
    if a == [] {
      assert a + b == b;
    } else {
      assert (a + b)[1..] == a[1..] + b;
      PickedAppend(pick, a[1..], b);
      ConcatAssoc(pick(a[0]), Picked(pick, a[1..]), Picked(pick, b));
    }
  }

  lemma {:induction false} PickedSame(pick: string -> seq<string>, a: seq<string>, b: seq<string>)
    requires |a| == |b| && forall i :: 0 <= i < |a| ==> pick(a[i]) == pick(b[i])
    ensures Picked(pick, a) == Picked(pick, b)
  {
    if a != [] {
      PickedSame(pick, a[1..], b[1..]);
    }
  }

  // The line itself is picked if it is content, and nothing otherwise.
  predicate PicksContent(kind: Kinds, pick: string -> seq<string>, line: string, from: string) {
    pick(from) == if kind(line) == Content then [line] else []
  }

  lemma {:induction false} OutlineIsPicked(
    kind: Kinds, pick: string -> seq<string>, lines: seq<string>, from: seq<string>, parted: bool)
    requires |lines| == |from| && forall i :: 0 <= i < |lines| ==> PicksContent(kind, pick, lines[i], from[i])
    ensures Texts(Outline(kind, lines, parted)) == Picked(pick, from)
    decreases |lines|
  {
    if lines != [] {
      var line, rest := lines[0], lines[1..];
      assert PicksContent(kind, pick, line, from[0]);
      match kind(line)
      case Noise => OutlineIsPicked(kind, pick, rest, from[1..], parted);
      case Blank => OutlineIsPicked(kind, pick, rest, from[1..], true);
      case Content =>
        OutlineIsPicked(kind, pick, rest, from[1..], false);
        TextsCons(Entry(line, parted), Outline(kind, rest, false));
    }
  }
}

module MarkdownCleaner {
  import opened Text
  import opened LineFeeds
  import opened Tidying

  // ---- Lines -------------------------------------------------------------------------------

  function WithoutReturn(line: string): string {
    if line != "" && line[|line| - 1] == '\r' then line[..|line| - 1] else line
  }

  function WithoutReturns(lines: seq<string>): (r: seq<string>)
    ensures |r| == |lines| && forall i :: 0 <= i < |lines| ==> r[i] == WithoutReturn(lines[i])
  {
    seq(|lines|, i requires 0 <= i < |lines| => WithoutReturn(lines[i]))
  }

  // str::lines: a text that ends with a line feed has no line behind it.
  function LinesOf(s: string): seq<string> {
    WithoutReturns(Lines(s)) + if Unfinished(s) == "" then [] else [Unfinished(s)]
  }

  predicate IsLess(c: char) { c == '<' }

  predicate IsGreater(c: char) { c == '>' }

  // t without the '<' it starts with and the '>' it ends with.
  function Unbracketed(t: string): string {
    var a := TrimStartAt(IsLess, t, 0);
    t[a..TrimEndAt(IsGreater, t, a, |t|)]
  }

  predicate IsBareUrl(t: string) {
    var url := Unbracketed(t);
    (StartsWith(url, "http://") || StartsWith(url, "https://")) && ' ' !in url
  }

  predicate IsPunctuation(t: string) {
    forall c :: c in t ==> c in {'[', ']', '(', ')', '!', '-', '*', ' ', '|', '_'}
  }

  predicate IsNoise(t: string) {
    IsBareUrl(t) || IsPunctuation(t)
  }

  predicate IsArtifactLine(line: string) {
    var t := Trim(line);
    t != "" && IsNoise(t)
  }

  // ---- The loop ----------------------------------------------------------------------------

  function TrimEnd(s: string): string {
    TrimEndBy(IsWhitespace, s)
  }

  function TrimEnds(lines: seq<string>): (r: seq<string>)
    ensures |r| == |lines| && forall i :: 0 <= i < |lines| ==> r[i] == TrimEnd(lines[i])
  {
    seq(|lines|, i requires 0 <= i < |lines| => TrimEnd(lines[i]))
  }

  function KindOf(line: string): Kind {
    if IsArtifactLine(line) then Noise else if Trim(line) == "" then Blank else Content
  }

  function Cleaned(md: string): string {
    Trim(Terminated(Tidy(KindOf, TrimEnds(LinesOf(md)), false)))
  }

  method CleanMarkdown(md: string) returns (r: string)
    ensures r == Cleaned(md)
  {
    var lines := LinesOf(md);
    var out := "";
    var blankCount := 0;
    ghost var kind, trimmed := KindOf, TrimEnds(lines);
    ghost var total := Terminated(Tidy(kind, trimmed, false));
    assert trimmed[0..] == trimmed && out + total == total;
    for i := 0 to |lines|
      invariant Halfway(kind, trimmed[i..], blankCount > 0, out, total)
    {
      var line := TrimEnd(lines[i]);
      SliceFirst(trimmed, i);
      WriteLine(kind, line, trimmed[i + 1..], blankCount > 0, out, total);
      assert kind(line) == KindOf(line);
      if IsArtifactLine(line) {
        continue;
      }
      if Trim(line) == "" {
        blankCount := blankCount + 1;
        if blankCount == 1 {
          out := out + "\n";
        }
        continue;
      }
      blankCount := 0;
      out := out + line;
      out := out + "\n";
    }
    assert trimmed[|lines|..] == [] && out + "" == out;
    r := Trim(out);
  }

  // ---- Clean texts -------------------------------------------------------------------------

  ghost predicate IsClean(s: string) {
    exists lines :: AreCleanLines(IsWhitespace, KindOf, lines) && s == TextOf(lines)
  }

  lemma {:induction false} LinesAreLines(s: string, i: nat)
    requires i < |LinesOf(s)|
    ensures OneLine(LinesOf(s)[i])
  {
    SplitIsInverseOfJoin(s);
    if i < |Lines(s)| {
      assert Lines(s)[i] == Split(s)[i] && Split(s)[i] in Split(s);
    } else {
      assert Unfinished(s) in Split(s);
    }
  }

  lemma {:induction false} LineFits(line: string)
    requires IsLine(IsWhitespace, line)
    ensures Fits(IsWhitespace, KindOf, line)
  {
    TrimEndTwice(IsWhitespace, line);
    if line != "" {
      var indent, core := LineParts(IsWhitespace, line);
    }
  }

  lemma {:induction false} TrimmedLineFits(line: string)
    requires OneLine(line)
    ensures Fits(IsWhitespace, KindOf, TrimEnd(line))
  {
    TrimEndTwice(IsWhitespace, line);
    LineFits(TrimEnd(line));
  }

  lemma {:induction false} TrimmedLinesFit(s: string)
    ensures AllFit(IsWhitespace, KindOf, TrimEnds(LinesOf(s)))
  {
    var lines, trimmed := LinesOf(s), TrimEnds(LinesOf(s));
    forall l | l in trimmed ensures Fits(IsWhitespace, KindOf, l) {
      var i :| 0 <= i < |trimmed| && trimmed[i] == l;
      LinesAreLines(s, i);
      TrimmedLineFits(lines[i]);
    }
  }

  // What the input says: its content lines and the breaks between them.
  function OutlineOf(md: string): seq<Entry> {
    Outline(KindOf, TrimEnds(LinesOf(md)), true)
  }

  lemma {:induction false} CleanedFrom(md: string) returns (lines: seq<string>)
    ensures AreCleanLines(IsWhitespace, KindOf, lines) && Cleaned(md) == TextOf(lines)
    ensures Outline(KindOf, lines, true) == Unindent(IsWhitespace, OutlineOf(md))
  {
    var trimmed := TrimEnds(LinesOf(md));
    TrimmedLinesFit(md);
    LineFits("");
    TidyIsTidy(KindOf, trimmed, false, true);
    lines := TrimmedIsClean(IsWhitespace, KindOf, Tidy(KindOf, trimmed, false), false);
  }

  // The cleaned text is laid out from what the input says, but for the first line's indentation: every
  // content line, and between two of them one blank line exactly where there were any.
  lemma {:induction false} CleanedIsClean(md: string)
    ensures IsClean(Cleaned(md))
    ensures Cleaned(md) == TextOf(Lay(Unindent(IsWhitespace, OutlineOf(md))))
  {
    var lines := CleanedFrom(md);
    forall l | l in lines ensures KindOf(l) == Blank ==> l == "" {
      LineFits(l);
    }
    CleanIsLaid(IsWhitespace, KindOf, lines);
  }

  lemma {:induction false} LineHasNoReturn(line: string)
    requires IsLine(IsWhitespace, line)
    ensures WithoutReturn(line) == line
  {
    if line != "" {
      LineEnds(IsWhitespace, line);
    }
  }

  lemma {:induction false} WithoutReturnsKeeps(lines: seq<string>)
    requires forall l :: l in lines ==> IsLine(IsWhitespace, l)
    ensures WithoutReturns(lines) == lines && TrimEnds(lines) == lines
  {
    forall i | 0 <= i < |lines| ensures WithoutReturn(lines[i]) == lines[i] == TrimEnd(lines[i]) {
      assert lines[i] in lines;
      LineHasNoReturn(lines[i]);
    }
  }

  lemma {:induction false} LinesOfText(lines: seq<string>)
    requires lines != [] && lines[|lines| - 1] != "" && forall l :: l in lines ==> IsLine(IsWhitespace, l)
    ensures LinesOf(Join(lines)) == lines
  {
    var front, last := lines[..|lines| - 1], lines[|lines| - 1];
    LinesOfJoined(lines);
    WithoutReturnsKeeps(front);
    assert front + [last] == lines;
  }

  lemma {:induction false} LinesOfClean(lines: seq<string>)
    requires AreCleanLines(IsWhitespace, KindOf, lines)
    ensures TrimEnds(LinesOf(TextOf(lines))) == lines
  {
    if lines != [] {
      LinesOfText(lines);
      WithoutReturnsKeeps(lines);
    }
  }

  lemma {:induction false} CleanStays(lines: seq<string>)
    requires AreCleanLines(IsWhitespace, KindOf, lines)
    ensures Cleaned(TextOf(lines)) == TextOf(lines)
  {
    LinesOfClean(lines);
    if lines != [] {
      assert lines[0] in lines;
      LineFits(lines[0]);
    }
    CleanLinesTrim(IsWhitespace, KindOf, lines);
    IsTidyAnyway(KindOf, lines);
    TidyStays(KindOf, lines, false);
  }

  // The texts that cleaning leaves as they are are the clean ones; so cleaning twice is cleaning once.
  lemma {:induction false} CleaningIsIdempotent(s: string)
    ensures Cleaned(s) == s <==> IsClean(s)
    ensures Cleaned(Cleaned(s)) == Cleaned(s)
  {
    var lines := CleanedFrom(s);
    CleanStays(lines);
    if IsClean(s) {
      var ls :| AreCleanLines(IsWhitespace, KindOf, ls) && s == TextOf(ls);
      CleanStays(ls);
    }
  }

  // ---- What an artifact is, and what is left ------------------------------------------------

  // A bare link: a URL without a blank, possibly in angle brackets.
  ghost predicate IsLink(t: string) {
    ' ' !in t && exists n :: 0 <= n <= |t| && UrlBehind(t, n)
  }

  ghost predicate UrlBehind(t: string, n: nat)
    requires n <= |t|
  {
    (forall k :: 0 <= k < n ==> t[k] == '<') && ("http://" <= t[n..] || "https://" <= t[n..])
  }

  // Punctuation that links, images, rules and tables leave behind, or a bare link.
  ghost predicate IsDebris(t: string) {
    (forall c :: c in t ==> c in "[]()!-* |_") || IsLink(t)
  }

  lemma {:induction false} BracketsAround(t: string)
    ensures var a := TrimStartAt(IsLess, t, 0);
            ' ' in t <==> ' ' in t[a..TrimEndAt(IsGreater, t, a, |t|)]
  {
    var a := TrimStartAt(IsLess, t, 0);
    var b := TrimEndAt(IsGreater, t, a, |t|);
    if ' ' in t {
      var k :| 0 <= k < |t| && t[k] == ' ';
      assert a <= k < b;
      assert t[a..b][k - a] == ' ';
    }
  }

  lemma {:induction false} PrefixStays(t: string, p: string)
    requires p != "" && p[|p| - 1] != '>'
    ensures var a := TrimStartAt(IsLess, t, 0);
            StartsWith(Unbracketed(t), p) <==> p <= t[a..]
  {
    var a := TrimStartAt(IsLess, t, 0);
    var b := TrimEndAt(IsGreater, t, a, |t|);
    if p <= t[a..] {
      assert t[a + |p| - 1] == p[|p| - 1];
      assert a + |p| <= b;
      assert t[a..b][..|p|] == t[a..][..|p|];
    }
    if StartsWith(Unbracketed(t), p) {
      assert t[a..][..|p|] == t[a..b][..|p|];
    }
  }

  lemma {:induction false} UrlStartsAt(t: string, n: nat)
    requires n <= |t| && UrlBehind(t, n)
    ensures TrimStartAt(IsLess, t, 0) == n
  {
    assert t[n] == 'h';
  }

  lemma {:induction false} BareUrlIsLink(t: string)
    ensures IsBareUrl(t) <==> IsLink(t)
  {
    var a := TrimStartAt(IsLess, t, 0);
    BracketsAround(t);
    PrefixStays(t, "http://");
    PrefixStays(t, "https://");
    assert UrlBehind(t, a) <==> StartsWith(Unbracketed(t), "http://") || StartsWith(Unbracketed(t), "https://");
    if IsLink(t) {
      var n :| 0 <= n <= |t| && UrlBehind(t, n);
      UrlStartsAt(t, n);
    }
  }

  // The lines that are dropped are those that hold debris and nothing else.
  lemma {:induction false} ArtifactsAreDebris(line: string)
    ensures IsArtifactLine(line) <==> Trim(line) != "" && IsDebris(Trim(line))
  {
    BareUrlIsLink(Trim(line));
    assert forall c :: c in "[]()!-* |_" <==> c in {'[', ']', '(', ')', '!', '-', '*', ' ', '|', '_'};
  }

  // The lines of a text that say something, without white space at their ends.
  ghost function ProseOf(line: string): seq<string> {
    if Trim(line) == "" || IsDebris(Trim(line)) then [] else [TrimEnd(line)]
  }

  ghost function Prose(lines: seq<string>): seq<string> {
    Picked(ProseOf, lines)
  }

  function UnindentFirst(lines: seq<string>): seq<string> {
    if lines == [] then [] else [Trim(lines[0])] + lines[1..]
  }

  lemma {:induction false} LineIsProse(line: string)
    ensures PicksContent(KindOf, ProseOf, TrimEnd(line), line)
  {
    TrimEndTwice(IsWhitespace, line);
    ArtifactsAreDebris(TrimEnd(line));
  }

  lemma {:induction false} OutlineIsProse(lines: seq<string>)
    ensures Texts(Outline(KindOf, TrimEnds(lines), true)) == Prose(lines)
  {
    forall i | 0 <= i < |lines| ensures PicksContent(KindOf, ProseOf, TrimEnds(lines)[i], lines[i]) {
      LineIsProse(lines[i]);
    }
    OutlineIsPicked(KindOf, ProseOf, TrimEnds(lines), lines, true);
  }

  lemma {:induction false} ReturnIsTrimmed(line: string)
    ensures TrimEnd(WithoutReturn(line)) == TrimEnd(line) && Trim(WithoutReturn(line)) == Trim(line)
  {
    var t := WithoutReturn(line);
    if t != line {
      assert line == t + "\r" && line == "" + t + "\r";
      TrimAround(IsWhitespace, "", t, "\r");
      TrimEndAround(t, "\r");
    }
  }

  lemma {:induction false} TrimEndAround(s: string, after: string)
    requires IsBlank(after)
    ensures TrimEnd(s + after) == TrimEnd(s)
  {
    var e := TrimEndAt(IsWhitespace, s, 0, |s|);
    assert forall k :: 0 <= k < |s| ==> (s + after)[k] == s[k];
    assert forall k :: |s| <= k < |s + after| ==> (s + after)[k] == after[k - |s|];
    TrimEndIs(IsWhitespace, s + after, 0, |s + after|, e);
    assert (s + after)[..e] == s[..e];
  }

  lemma {:induction false} ProseOfLines(s: string)
    ensures Prose(LinesOf(s)) == Prose(Split(s))
  {
    var pick, last, lines := ProseOf, Unfinished(s), WithoutReturns(Lines(s));
    SplitParts(s);
    forall i | 0 <= i < |lines| ensures pick(lines[i]) == pick(Lines(s)[i]) {
      ReturnIsTrimmed(Lines(s)[i]);
    }
    PickedSame(pick, lines, Lines(s));
    PickedAppend(pick, Lines(s), [last]);
    if last == "" {
      PickedOne(pick, last);
      assert LinesOf(s) == lines;
    } else {
      PickedAppend(pick, lines, [last]);
    }
  }

  lemma {:induction false} PickedOne(pick: string -> seq<string>, line: string)
    ensures Picked(pick, [line]) == pick(line)
  {
    assert [line][1..] == [];
  }

  // The cleaned text holds, in order, every line of the input that says something and no other; only the
  // first loses its indentation.
  lemma {:induction false} CleanedHoldsProse(md: string)
    ensures Prose(Split(Cleaned(md))) == UnindentFirst(Prose(Split(md)))
  {
    var lines := CleanedFrom(md);
    var entries := OutlineOf(md);
    LinesOfClean(lines);
    OutlineIsProse(LinesOf(Cleaned(md)));
    OutlineIsProse(LinesOf(md));
    ProseOfLines(Cleaned(md));
    ProseOfLines(md);
    UnindentTexts(entries);
  }

  lemma {:induction false} UnindentTexts(entries: seq<Entry>)
    ensures Texts(Unindent(IsWhitespace, entries)) == UnindentFirst(Texts(entries))
  {
  }
}
