// JSON strings (RFC 8259, section 7): how serde_json writes them and how a JSON reader reads them back.

module JsonStrings {
  import opened Wrappers
  import opened LineFeeds

  // One unit of a JSON string body. `Pair` is a UTF-16 surrogate pair written as two \u escapes.
  datatype Unit =
    | Raw(c: char)
    | Short(e: char)
    | Hex(digits: string)
    | Pair(high: string, low: string)

  const SHORT_ESCAPES := "\"\\/bfnrt"

  predicate IsHexDigit(c: char) {
    '0' <= c <= '9' || 'a' <= c <= 'f' || 'A' <= c <= 'F'
  }

  function DigitValue(c: char): (v: nat)
    requires IsHexDigit(c)
    ensures v < 16
  {
    if c <= '9' then c as int - '0' as int
    else if c <= 'F' then c as int - 'A' as int + 10
    else c as int - 'a' as int + 10
  }

  predicate IsQuad(h: string) {
    |h| == 4 && forall k :: 0 <= k < 4 ==> IsHexDigit(h[k])
  }

  function QuadValue(h: string): (v: nat)
    requires IsQuad(h)
    ensures v < 0x10000
  {
    ((DigitValue(h[0]) * 16 + DigitValue(h[1])) * 16 + DigitValue(h[2])) * 16 + DigitValue(h[3])
  }

  predicate IsHigh(v: nat) { 0xD800 <= v < 0xDC00 }

  predicate IsLow(v: nat) { 0xDC00 <= v < 0xE000 }

  predicate Valid(u: Unit) {
    match u
    case Raw(c) => c >= ' ' && c != '"' && c != '\\'
    case Short(e) => e in SHORT_ESCAPES
    case Hex(h) => IsQuad(h) && !IsHigh(QuadValue(h)) && !IsLow(QuadValue(h))
    case Pair(h, l) => IsQuad(h) && IsQuad(l) && IsHigh(QuadValue(h)) && IsLow(QuadValue(l))
  }

  predicate AllValid(us: seq<Unit>) {
    forall u :: u in us ==> Valid(u)
  }

  // What a short escape stands for; a character that starts no escape stands for itself.
  function Unescape(e: char): char {
    match e
    case 'n' => '\n'
    case 'r' => '\r'
    case 't' => '\t'
    case 'b' => '\U{0008}'
    case 'f' => '\U{000C}'
    case _ => e
  }

  function PrintUnit(u: Unit): string {
    match u
    case Raw(c) => [c]
    case Short(e) => ['\\', e]
    case Hex(h) => "\\u" + h
    case Pair(h, l) => "\\u" + h + "\\u" + l
  }

  function Print(us: seq<Unit>): string {
    if us == [] then "" else PrintUnit(us[0]) + Print(us[1..])
  }

  function UnitMeaning(u: Unit): char
    requires Valid(u)
  {
    match u
    case Raw(c) => c
    case Short(e) => Unescape(e)
    case Hex(h) => QuadValue(h) as char
    case Pair(h, l) => (0x10000 + (QuadValue(h) - 0xD800) * 0x400 + (QuadValue(l) - 0xDC00)) as char
  }

  // The string a conforming JSON reader gets: one character per unit.
  function Meaning(us: seq<Unit>): (m: string)
    requires AllValid(us)
    ensures |m| == |us|
  {
    if us == [] then "" else [UnitMeaning(us[0])] + Meaning(us[1..])
  }

  // The escapes of RFC 8259, section 7.
  lemma {:induction false} EscapeTable(e: char)
    ensures Valid(Short(e)) <==> e in {'"', '\\', '/', 'b', 'f', 'n', 'r', 't'}
    ensures Unescape('"') == '"' && Unescape('\\') == '\\' && Unescape('/') == '/'
    ensures Unescape('b') == 8 as char && Unescape('f') == 12 as char
    ensures Unescape('n') == 10 as char && Unescape('r') == 13 as char && Unescape('t') == 9 as char
  {
  }

  lemma {:induction false} HexDigitTable(c: char)
    ensures IsHexDigit(c) <==> c in "0123456789abcdef" || c in "0123456789ABCDEF"
    ensures forall v: nat :: v < 16 && (c == "0123456789abcdef"[v] || c == "0123456789ABCDEF"[v]) ==> DigitValue(c) == v
  {
    var lower, upper := "0123456789abcdef", "0123456789ABCDEF";
    if IsHexDigit(c) {
      var v := DigitValue(c);
      assert c <= 'F' ==> c == upper[v];
      assert 'a' <= c ==> c == lower[v];
    }
  }

  // A character beyond the first plane is written as a surrogate pair and is what the pair means.
  lemma {:induction false} PairMeansCharacter(c: char, high: string, low: string)
    requires c as int >= 0x10000 && IsQuad(high) && IsQuad(low)
    requires QuadValue(high) == 0xD800 + (c as int - 0x10000) / 0x400
    requires QuadValue(low) == 0xDC00 + (c as int - 0x10000) % 0x400
    ensures Valid(Pair(high, low)) && UnitMeaning(Pair(high, low)) == c
  {
  }

  // ---- Reading ----------------------------------------------------------------------------

  // The unit at the front of `s`, and what follows it.
  function ReadUnit(s: string): (r: Option<(Unit, string)>)
    ensures r.Some? ==> Valid(r.value.0) && s == PrintUnit(r.value.0) + r.value.1
  {
    if s == "" || s[0] == '"' || s[0] < ' ' then None
    else if s[0] != '\\' then Some((Raw(s[0]), s[1..]))
    else if |s| < 2 then None
    else if s[1] in SHORT_ESCAPES then Some((Short(s[1]), s[2..]))
    else if s[1] != 'u' || |s| < 6 || !IsQuad(s[2..6]) then None
    else if !IsHigh(QuadValue(s[2..6])) then
      if IsLow(QuadValue(s[2..6])) then None else Some((Hex(s[2..6]), s[6..]))
    else if |s| < 12 || s[6..8] != "\\u" || !IsQuad(s[8..12]) || !IsLow(QuadValue(s[8..12])) then None
    else
      assert s == s[..2] + s[2..6] + s[6..8] + s[8..12] + s[12..];
      Some((Pair(s[2..6], s[8..12]), s[12..]))
  }

  // The text of a JSON string whose opening quote has been read, and what follows its closing quote.
  function ReadString(s: string): Option<(string, string)>
    decreases |s|
  {
    if s == "" then None
    else if s[0] == '"' then Some(("", s[1..]))
    else
      match ReadUnit(s)
      case None => None
      case Some((u, rest)) =>
        match ReadString(rest)
        case None => None
        case Some((text, after)) => Some(([UnitMeaning(u)] + text, after))
  }

  lemma {:induction false} ReadUnitInvertsPrint(u: Unit, rest: string)
    requires Valid(u)
    ensures ReadUnit(PrintUnit(u) + rest) == Some((u, rest))
    ensures PrintUnit(u)[0] != '"'
  {
    var s := PrintUnit(u) + rest;
    match u
    case Raw(c) => assert s[1..] == rest;
    case Short(e) => assert s[2..] == rest;
    case Hex(h) => assert s[2..6] == h && s[6..] == rest && s[1] == 'u';
    case Pair(h, l) =>
      assert s[2..6] == h && s[6..8] == "\\u" && s[8..12] == l && s[12..] == rest && s[1] == 'u';
  }

  // A reader recovers from any printed body exactly what it means.
  lemma {:induction false} ReadStringInvertsPrint(us: seq<Unit>, rest: string)
    requires AllValid(us)
    ensures ReadString(Print(us) + "\"" + rest) == Some((Meaning(us), rest))
  {
    var s := Print(us) + "\"" + rest;
    if us == [] {
      assert s[0] == '"' && s[1..] == rest;
    } else {
      var tail := Print(us[1..]) + "\"" + rest;
      assert s == PrintUnit(us[0]) + tail;
      ReadUnitInvertsPrint(us[0], tail);
      ReadStringInvertsPrint(us[1..], rest);
    }
  }

  // ---- Writing ----------------------------------------------------------------------------

  function HexDigit(v: nat): (c: char)
    requires v < 16
    ensures IsHexDigit(c) && DigitValue(c) == v
  {
    if v < 10 then ('0' as int + v) as char else ('a' as int + v - 10) as char
  }

  function ControlQuad(v: nat): (h: string)
    requires v < 0x20
    ensures IsQuad(h) && QuadValue(h) == v
  {
    ['0', '0', HexDigit(v / 16), HexDigit(v % 16)]
  }

  // How serde_json writes one character: the five short control escapes, the quote and the backslash,
  // \u00xx for the other control characters, everything else as it is.
  function SerdeUnit(c: char): (u: Unit)
    ensures Valid(u) && UnitMeaning(u) == c
  {
    match c
    case '"' => Short('"')
    case '\\' => Short('\\')
    case '\n' => Short('n')
    case '\r' => Short('r')
    case '\t' => Short('t')
    case '\U{0008}' => Short('b')
    case '\U{000C}' => Short('f')
    case _ => if c < ' ' then Hex(ControlQuad(c as int)) else Raw(c)
  }

  function SerdeUnits(s: string): (us: seq<Unit>)
    ensures AllValid(us) && Meaning(us) == s
  {
    if s == "" then [] else
      var us := [SerdeUnit(s[0])] + SerdeUnits(s[1..]);
      assert us[1..] == SerdeUnits(s[1..]);
      us
  }

  lemma {:induction false} SerdeUnitsAre(s: string)
    ensures |SerdeUnits(s)| == |s| && forall k :: 0 <= k < |s| ==> SerdeUnits(s)[k] == SerdeUnit(s[k])
  {
    if s != "" {
      SerdeUnitsAre(s[1..]);
    }
  }

  function Serialize(s: string): string {
    "\"" + Print(SerdeUnits(s)) + "\""
  }

  lemma {:induction false} PrintIsOneLine(us: seq<Unit>)
    requires AllValid(us)
    ensures OneLine(Print(us))
  {
    if us != [] {
      PrintIsOneLine(us[1..]);
      assert Valid(us[0]);
      assert OneLine(PrintUnit(us[0]));
    }
  }

  // Written strings fit on one line and read back as themselves, whatever follows them.
  lemma {:induction false} SerializeRoundTrip(s: string, rest: string)
    ensures OneLine(Serialize(s))
    ensures Serialize(s)[0] == '"'
    ensures ReadString((Serialize(s) + rest)[1..]) == Some((s, rest))
  {
    var body := Print(SerdeUnits(s));
    assert OneLine("\"" + body + "\"") by { PrintIsOneLine(SerdeUnits(s)); }
    assert ("\"" + body + "\"" + rest)[1..] == body + "\"" + rest;
    assert ReadString(body + "\"" + rest) == Some((s, rest)) by { ReadStringInvertsPrint(SerdeUnits(s), rest); }
  }
}
