// Texts and their lines.

module LineFeeds {
  import opened Text

  predicate OneLine(s: string) {
    forall k :: 0 <= k < |s| ==> s[k] != '\n'
  }

  // Splitting at line feeds; the last part is what follows the last one.
  function Split(s: string): (parts: seq<string>)
    ensures parts != []
  {
    if s == "" then [""] else Prepend(s[0], Split(s[1..]))
  }

  function Prepend(c: char, parts: seq<string>): (r: seq<string>)
    requires parts != []
    ensures r != []
  {
    if c == '\n' then [""] + parts else [[c] + parts[0]] + parts[1..]
  }

  function Unfinished(s: string): string {
    var parts := Split(s);
    parts[|parts| - 1]
  }

  function Lines(s: string): seq<string> {
    var parts := Split(s);
    parts[..|parts| - 1]
  }

  lemma {:induction false} PrependAppend(c: char, x: seq<string>, y: seq<string>)
    requires x != []
    ensures Prepend(c, x + y) == Prepend(c, x) + y
  {
    assert (x + y)[1..] == x[1..] + y;
  }

  lemma {:induction false} PrependUnfinished(c: char, ls: seq<string>, u: string, b: string)
    ensures var parts := Prepend(c, ls + [u]);
            Prepend(c, ls + Split(u + b)) == parts[..|parts| - 1] + Split(parts[|parts| - 1] + b)
  {
    var parts := Prepend(c, ls + [u]);
    if ls != [] {
      PrependAppend(c, ls, [u]);
      PrependAppend(c, ls, Split(u + b));
      assert parts[..|parts| - 1] == Prepend(c, ls);
    } else {
      assert ls + [u] == [u] && ls + Split(u + b) == Split(u + b);
      if c != '\n' {
        assert parts == [[c] + u] && parts[..0] == [];
        assert ([c] + u + b)[0] == c && ([c] + u + b)[1..] == u + b;
      } else {
        assert parts == [""] + [u] && parts[..1] == [""];
      }
    }
  }

  // Only the unfinished line of what has been read matters for what comes next.
  lemma {:induction false} SplitAppend(a: string, b: string)
    ensures Split(a + b) == Lines(a) + Split(Unfinished(a) + b)
  {
    if a == "" {
      assert a + b == b && Unfinished(a) + b == b;
    } else {
      var c, t := a[0], a[1..];
      var ls, u := Lines(t), Unfinished(t);
      SplitAppend(t, b);
      SplitParts(t);
      SplitCons(c, t, a);
      SplitCons(c, t + b, a + b);
      PrependUnfinished(c, ls, u, b);
    }
  }

  lemma {:induction false} SplitParts(s: string)
    ensures Split(s) == Lines(s) + [Unfinished(s)]
  {
  }

  lemma {:induction false} SplitCons(c: char, t: string, s: string)
    requires s == [c] + t
    ensures Split(s) == Prepend(c, Split(t))
  {
    assert s[1..] == t;
  }

  lemma {:induction false} LinesAppend(a: string, b: string)
    ensures Lines(a + b) == Lines(a) + Lines(Unfinished(a) + b)
    ensures Unfinished(a + b) == Unfinished(Unfinished(a) + b)
  {
    SplitAppend(a, b);
  }

  lemma {:induction false} SplitLine(line: string, rest: string)
    requires OneLine(line)
    ensures Split(line + "\n" + rest) == [line] + Split(rest)
  {
    var s := line + "\n" + rest;
    if line == "" {
      assert s[0] == '\n' && s[1..] == rest;
    } else {
      SplitLine(line[1..], rest);
      assert s[1..] == line[1..] + "\n" + rest;
      assert [line[0]] + line[1..] == line;
    }
  }

  function Join(parts: seq<string>): string
    requires parts != []
  {
    if |parts| == 1 then parts[0] else parts[0] + "\n" + Join(parts[1..])
  }

  lemma {:induction false} JoinCons(c: char, parts: seq<string>)
    requires parts != []
    ensures Join(Prepend(c, parts)) == [c] + Join(parts)
  {
    if c == '\n' {
      assert ([""] + parts)[1..] == parts;
    } else if |parts| > 1 {
      var more := "\n" + Join(parts[1..]);
      assert Prepend(c, parts)[1..] == parts[1..];
      ConcatAssoc([c], parts[0], more);
      ConcatAssoc(parts[0], "\n", Join(parts[1..]));
      ConcatAssoc([c] + parts[0], "\n", Join(parts[1..]));
    }
  }

  // The parts are the lines of the text: none contains a line feed, and joined they are the text.
  lemma {:induction false} SplitIsInverseOfJoin(s: string)
    ensures forall part :: part in Split(s) ==> OneLine(part)
    ensures Join(Split(s)) == s
  {
    if s != "" {
      var c, parts := s[0], Split(s[1..]);
      SplitIsInverseOfJoin(s[1..]);
      PrependKeepsLines(c, parts);
      JoinCons(c, parts);
      assert s == [c] + s[1..];
    }
  }

  lemma {:induction false} PrependKeepsLines(c: char, parts: seq<string>)
    requires parts != [] && forall part :: part in parts ==> OneLine(part)
    ensures forall part :: part in Prepend(c, parts) ==> OneLine(part)
  {
    assert parts[0] in parts && forall part :: part in parts[1..] ==> part in parts;
  }
}
