/** JSON text: the runner's string printer, and a parser of RFC 8259. */
module JsonText {
  import opened Wrappers
  import opened Numbers

  /** A parsed value: members in text order, a number as it was spelled. */
  datatype Value =
    | JNull
    | JBool(flag: bool)
    | JNum(lexeme: string)
    | JStr(str: string)
    | JArr(items: seq<Value>)
    | JObj(members: seq<(string, Value)>)

  // -------------------------------------------------------------- printing

  function HexDigit(n: nat): char
    requires n < 16
  {
    if n < 10 then '0' + (n as char) else 'a' + ((n - 10) as char)
  }

  /** How one character is written inside a string literal. */
  function Escape(c: char): string {
    if c == '"' then ['\\', '"']
    else if c == '\\' then ['\\', '\\']
    else if c == '\n' then ['\\', 'n']
    else if c == '\r' then ['\\', 'r']
    else if c == '\t' then ['\\', 't']
    else if c as int < 0x20 then ['\\', 'u', '0', '0', HexDigit(c as int / 16), HexDigit(c as int % 16)]
    else [c]
  }

  function EscapeAll(s: string): string {
    if s == [] then [] else EscapeAll(s[..|s| - 1]) + Escape(s[|s| - 1])
  }

  /** A JSON string literal. */
  function JsonString(s: string): string {
    ['"'] + EscapeAll(s) + ['"']
  }

  method WriteJsonString(value: string) returns (out: string)
    ensures out == JsonString(value)
  {
    out := ['"'];
    for i := 0 to |value|
      invariant out == ['"'] + EscapeAll(value[..i])
    {
      assert value[..i + 1][..i] == value[..i];
      out := out + Escape(value[i]);
    }
    assert value[..|value|] == value;
    out := out + ['"'];
  }

  // --------------------------------------------------------------- parsing

  /** Insignificant white space (section 2 of RFC 8259). */
  predicate IsWs(c: char) {
    c == ' ' || c == '\t' || c == '\n' || c == '\r'
  }

  predicate AllWs(s: string) {
    forall c :: c in s ==> IsWs(c)
  }

  function SkipWs(s: string): (r: string)
    ensures |r| <= |s|
  {
    if s != [] && IsWs(s[0]) then SkipWs(s[1..]) else s
  }

  function HexValue(c: char): Option<nat> {
    if '0' <= c <= '9' then Some(c as int - '0' as int)
    else if 'a' <= c <= 'f' then Some(c as int - 'a' as int + 10)
    else if 'A' <= c <= 'F' then Some(c as int - 'A' as int + 10)
    else None
  }

  /** Four hexadecimal digits. */
  function FourHex(s: string): (r: Option<nat>)
    requires |s| >= 4
    ensures r.Some? ==> r.value < 0x1_0000
  {
    match (HexValue(s[0]), HexValue(s[1]), HexValue(s[2]), HexValue(s[3]))
    case (Some(a), Some(b), Some(c), Some(d)) =>
      if a < 16 && b < 16 && c < 16 && d < 16 then Some(4096 * a + 256 * b + 16 * c + d) else None
    case _ => None
  }

  /** The escapes of one letter (section 7 of RFC 8259). */
  function ShortEscape(c: char): Option<char> {
    if c == '"' || c == '\\' || c == '/' then Some(c)
    else if c == 'b' then Some('\U{8}')
    else if c == 'f' then Some('\U{c}')
    else if c == 'n' then Some('\n')
    else if c == 'r' then Some('\r')
    else if c == 't' then Some('\t')
    else None
  }

  /** A `u` escape, after its `u`: one code unit, or a surrogate pair. A lone
      surrogate denotes no character. */
  function UnicodeEscape(s: string): (r: Option<(char, string)>)
    ensures r.Some? ==> |r.value.1| < |s|
  {
    if |s| < 4 then None
    else match FourHex(s)
      case None => None
      case Some(unit) =>
        if unit < 0xd800 || 0xe000 <= unit then Some((unit as char, s[4..]))
        else if unit < 0xdc00 && |s| >= 10 && s[4] == '\\' && s[5] == 'u' then
          match FourHex(s[6..])
          case Some(low) =>
            if 0xdc00 <= low < 0xe000
            then Some(((0x10000 + 0x400 * (unit - 0xd800) + (low - 0xdc00)) as char, s[10..]))
            else None
          case None => None
        else None
  }

  /** The rest of a string literal, after its opening quote. */
  function ParseString(s: string): (r: Option<(string, string)>)
    ensures r.Some? ==> |r.value.1| < |s|
    decreases |s|
  {
    if s == [] then None
    else if s[0] == '"' then Some(([], s[1..]))
    else if s[0] == '\\' then
      if |s| < 2 then None
      else if s[1] == 'u' then
        match UnicodeEscape(s[2..])
        case Some((c, rest)) => PrependTo(c, ParseString(rest))
        case None => None
      else
        match ShortEscape(s[1])
        case Some(c) => PrependTo(c, ParseString(s[2..]))
        case None => None
    else if s[0] as int < 0x20 then None
    else PrependTo(s[0], ParseString(s[1..]))
  }

  function PrependTo(c: char, r: Option<(string, string)>): (out: Option<(string, string)>)
    ensures out.Some? <==> r.Some?
    ensures out.Some? ==> out.value == ([c] + r.value.0, r.value.1)
  {
    match r
    case Some((text, rest)) => Some(([c] + text, rest))
    case None => None
  }

  function DigitRun(s: string): (n: nat)
    ensures n <= |s| && AllDigits(s[..n]) && (n < |s| ==> !IsDigit(s[n]))
  {
    if s == [] || !IsDigit(s[0]) then 0
    else
      var n := 1 + DigitRun(s[1..]);
      assert s[..n] == [s[0]] + s[1..][..n - 1];
      n
  }

  /** How much of `s` is a fraction, an exponent, a number (section 6). */
  function FractionRun(s: string): (n: nat)
    ensures n <= |s|
  {
    if s != [] && s[0] == '.' && DigitRun(s[1..]) > 0 then 1 + DigitRun(s[1..]) else 0
  }

  function ExponentRun(s: string): (n: nat)
    ensures n <= |s|
  {
    if s == [] || (s[0] != 'e' && s[0] != 'E') then 0
    else
      var from := if |s| > 1 && (s[1] == '+' || s[1] == '-') then 2 else 1;
      var digits := DigitRun(s[from..]);
      if digits > 0 then from + digits else 0
  }

  function NumberRun(s: string): (n: nat)
    ensures n <= |s|
  {
    var sign := if s != [] && s[0] == '-' then 1 else 0;
    var digits := DigitRun(s[sign..]);
    var whole := if digits > 0 && s[sign] == '0' then 1 else digits;
    if whole == 0 then 0
    else
      var fraction := FractionRun(s[sign + whole..]);
      sign + whole + fraction + ExponentRun(s[sign + whole + fraction..])
  }

  /** A value at the start of `s`, and what follows it (section 3). */
  function ParseValue(s: string): (r: Option<(Value, string)>)
    ensures r.Some? ==> |r.value.1| < |s|
    decreases |s|, 1
  {
    if s == [] then None
    else if s[0] == '"' then
      match ParseString(s[1..])
      case Some((text, rest)) => Some((JStr(text), rest))
      case None => None
    else if s[0] == '[' then
      var t := SkipWs(s[1..]);
      if t != [] && t[0] == ']' then Some((JArr([]), t[1..]))
      else
        match ParseElements(t)
        case Some((items, rest)) => Some((JArr(items), rest))
        case None => None
    else if s[0] == '{' then
      var t := SkipWs(s[1..]);
      if t != [] && t[0] == '}' then Some((JObj([]), t[1..]))
      else
        match ParseMembers(t)
        case Some((members, rest)) => Some((JObj(members), rest))
        case None => None
    else if "null" <= s then Some((JNull, s[4..]))
    else if "true" <= s then Some((JBool(true), s[4..]))
    else if "false" <= s then Some((JBool(false), s[5..]))
    else
      var n := NumberRun(s);
      if n > 0 then Some((JNum(s[..n]), s[n..])) else None
  }

  /** One or more array elements up to the closing bracket (section 5). */
  function ParseElements(s: string): (r: Option<(seq<Value>, string)>)
    ensures r.Some? ==> |r.value.1| < |s|
    decreases |s|, 2
  {
    match ParseValue(s)
    case None => None
    case Some((v, after)) =>
      var t := SkipWs(after);
      if t == [] then None
      else if t[0] == ']' then Some(([v], t[1..]))
      else if t[0] == ',' then
        match ParseElements(SkipWs(t[1..]))
        case Some((vs, rest)) => Some(([v] + vs, rest))
        case None => None
      else None
  }

  /** One or more object members up to the closing brace (section 4). */
  function ParseMembers(s: string): (r: Option<(seq<(string, Value)>, string)>)
    ensures r.Some? ==> |r.value.1| < |s|
    decreases |s|, 2
  {
    match ParseMember(s)
    case None => None
    case Some((m, after)) =>
      var t := SkipWs(after);
      if t == [] then None
      else if t[0] == '}' then Some(([m], t[1..]))
      else if t[0] == ',' then
        match ParseMembers(SkipWs(t[1..]))
        case Some((ms, rest)) => Some(([m] + ms, rest))
        case None => None
      else None
  }

  function ParseMember(s: string): (r: Option<((string, Value), string)>)
    ensures r.Some? ==> |r.value.1| < |s|
    decreases |s|, 1
  {
    if s == [] || s[0] != '"' then None
    else match ParseString(s[1..])
      case None => None
      case Some((name, after)) =>
        var t := SkipWs(after);
        if t == [] || t[0] != ':' then None
        else match ParseValue(SkipWs(t[1..]))
          case Some((v, rest)) => Some(((name, v), rest))
          case None => None
  }

  /** A whole JSON text (section 2). */
  function ParseText(s: string): Option<Value> {
    match ParseValue(SkipWs(s))
    case Some((v, rest)) => if SkipWs(rest) == [] then Some(v) else None
    case None => None
  }

  // -------------------------------------------------- strings round trip

  lemma EscapeIsParsed(c: char, rest: string)
    ensures ParseString(Escape(c) + rest) == PrependTo(c, ParseString(rest))
  {
    var e := Escape(c);
    if |e| == 6 {
      assert (e + rest)[2..] == e[2..] + rest;
      var u := e[2..] + rest;
      assert u[4..] == rest && u[0] == '0' && u[1] == '0';
      HexRoundTrip(c as int);
      assert FourHex(u) == Some(c as int);
      assert UnicodeEscape(u) == Some((c, rest));
    } else if |e| == 2 {
      assert (e + rest)[2..] == rest;
    } else {
      assert (e + rest)[1..] == rest;
    }
  }

  lemma HexRoundTrip(n: nat)
    requires n < 0x20
    ensures HexValue(HexDigit(n / 16)) == Some(n / 16) && HexValue(HexDigit(n % 16)) == Some(n % 16)
  {
  }

  function PrependAll(s: string, r: Option<(string, string)>): Option<(string, string)> {
    match r
    case Some((text, rest)) => Some((s + text, rest))
    case None => None
  }

  lemma {:induction false} EscapesAreParsed(s: string, rest: string)
    ensures ParseString(EscapeAll(s) + rest) == PrependAll(s, ParseString(rest))
  {
    if s == [] {
      assert EscapeAll(s) + rest == rest;
      if ParseString(rest).Some? { assert s + ParseString(rest).value.0 == ParseString(rest).value.0; }
    } else {
      var before, c := s[..|s| - 1], s[|s| - 1];
      var tail := Escape(c) + rest;
      assert EscapeAll(s) + rest == EscapeAll(before) + tail;
      EscapesAreParsed(before, tail);
      EscapeIsParsed(c, rest);
      assert s == before + [c];
      PrependBoth(before, c, ParseString(rest));
    }
  }

  lemma PrependBoth(before: string, c: char, r: Option<(string, string)>)
    ensures PrependAll(before, PrependTo(c, r)) == PrependAll(before + [c], r)
  {
    if r.Some? { assert before + ([c] + r.value.0) == (before + [c]) + r.value.0; }
  }

  /** Decoding a printed string gives the string back, whatever it holds. */
  lemma StringRoundTrip(s: string, rest: string)
    ensures ParseValue(JsonString(s) + rest) == Some((JStr(s), rest))
    ensures ParseString((JsonString(s) + rest)[1..]) == Some((s, rest)) && (JsonString(s) + rest)[0] == '"'
  {
    var text := JsonString(s) + rest;
    assert text[1..] == EscapeAll(s) + (['"'] + rest);
    EscapesAreParsed(s, ['"'] + rest);
    assert ParseString(['"'] + rest) == Some(([], rest)) by { assert (['"'] + rest)[1..] == rest; }
    assert s + [] == s;
  }
}
