// The prefix search over default suggestions (crates/kenjaku-infra/src/postgres/default_suggestions.rs,
// prefix_search_active): user input escaped for LIKE.

module PrefixSearch {
  import opened Text

  // str::replace with a single character.
  function Replace(s: string, c: char, with: string): string {
    if s == "" then "" else (if s[0] == c then with else [s[0]]) + Replace(s[1..], c, with)
  }

  function Escape(prefix: string): string {
    Replace(Replace(Replace(prefix, '\\', "\\\\"), '%', "\\%"), '_', "\\_")
  }

  function Pattern(prefix: string): string {
    Escape(prefix) + "%"
  }

  // LIKE ... ESCAPE '\' (ISO/IEC 9075-2, section 8.5): % stands for any characters, _ for any one
  // character, an escaped character for itself.
  predicate Like(pattern: string, s: string)
    decreases |pattern|, |s|
  {
    if pattern == "" then s == ""
    else if pattern[0] == '%' then Like(pattern[1..], s) || (s != "" && Like(pattern, s[1..]))
    else if pattern[0] == '_' then s != "" && Like(pattern[1..], s[1..])
    else if pattern[0] == '\\' then |pattern| > 1 && s != "" && s[0] == pattern[1] && Like(pattern[2..], s[1..])
    else s != "" && s[0] == pattern[0] && Like(pattern[1..], s[1..])
  }

  predicate IsSpecial(c: char) {
    c == '\\' || c == '%' || c == '_'
  }

  function EscapeOne(c: char): string {
    if IsSpecial(c) then ['\\', c] else [c]
  }

  function EscapeEach(s: string): string {
    if s == "" then "" else EscapeOne(s[0]) + EscapeEach(s[1..])
  }

  lemma {:induction false} ReplaceConcat(a: string, b: string, c: char, with: string)
    ensures Replace(a + b, c, with) == Replace(a, c, with) + Replace(b, c, with)
  {
    if a == "" {
      assert a + b == b;
    } else {
      assert (a + b)[1..] == a[1..] + b;
      ReplaceConcat(a[1..], b, c, with);
      ConcatAssoc(if a[0] == c then with else [a[0]], Replace(a[1..], c, with), Replace(b, c, with));
    }
  }

  lemma {:induction false} ReplaceOne(d: char, c: char, with: string)
    ensures Replace([d], c, with) == if d == c then with else [d]
  {
    assert [d][1..] == "";
    assert with + "" == with && [d] + "" == [d];
  }

  lemma {:induction false} ReplaceTwo(d: char, e: char, c: char, with: string)
    requires d != c && e != c
    ensures Replace([d, e], c, with) == [d, e]
  {
    ReplaceConcat([d], [e], c, with);
    ReplaceOne(d, c, with);
    ReplaceOne(e, c, with);
    assert [d] + [e] == [d, e];
  }

  lemma {:induction false} EscapeSingle(c: char)
    ensures Escape([c]) == EscapeOne(c)
  {
    ReplaceOne(c, '\\', "\\\\");
    ReplaceOne(c, '%', "\\%");
    ReplaceOne(c, '_', "\\_");
    ReplaceTwo('\\', '\\', '%', "\\%");
    ReplaceTwo('\\', '\\', '_', "\\_");
    ReplaceTwo('\\', '%', '_', "\\_");
  }

  // The three replacements in a row escape each character once.
  lemma {:induction false} EscapeIsEscapeEach(s: string)
    ensures Escape(s) == EscapeEach(s)
  {
    if s != "" {
      var c, rest := [s[0]], s[1..];
      assert s == c + rest;
      ReplaceConcat(c, rest, '\\', "\\\\");
      var c1, rest1 := Replace(c, '\\', "\\\\"), Replace(rest, '\\', "\\\\");
      ReplaceConcat(c1, rest1, '%', "\\%");
      ReplaceConcat(Replace(c1, '%', "\\%"), Replace(rest1, '%', "\\%"), '_', "\\_");
      EscapeSingle(s[0]);
      EscapeIsEscapeEach(rest);
    }
  }

  // An escaped text in a pattern matches itself and nothing else.
  lemma {:induction false} LikeEscaped(p: string, rest: string, s: string)
    ensures Like(EscapeEach(p) + rest, s) <==> p <= s && Like(rest, s[|p|..])
    decreases |p|
  {
    if p == "" {
      assert EscapeEach(p) + rest == rest && s[0..] == s;
    } else {
      var more := EscapeEach(p[1..]) + rest;
      var pattern := EscapeEach(p) + rest;
      ConcatAssoc(EscapeOne(p[0]), EscapeEach(p[1..]), rest);
      assert pattern == EscapeOne(p[0]) + more;
      assert pattern[|EscapeOne(p[0])|..] == more;
      assert Like(pattern, s) <==> s != "" && s[0] == p[0] && Like(more, s[1..]);
      if s != "" {
        LikeEscaped(p[1..], rest, s[1..]);
        assert p <= s <==> s[0] == p[0] && p[1..] <= s[1..];
        assert p <= s ==> s[1..][|p[1..]|..] == s[|p|..];
      }
    }
  }

  lemma {:induction false} PercentMatchesAll(s: string)
    ensures Like("%", s)
  {
    assert "%"[1..] == "";
    if s != "" {
      PercentMatchesAll(s[1..]);
    }
  }

  // The search matches a question exactly when it starts with what the user typed, wildcards included.
  lemma {:induction false} PatternMatchesPrefix(prefix: string, s: string)
    ensures Like(Pattern(prefix), s) <==> prefix <= s
  {
    EscapeIsEscapeEach(prefix);
    LikeEscaped(prefix, "%", s);
    if prefix <= s {
      PercentMatchesAll(s[|prefix|..]);
    }
  }
}
