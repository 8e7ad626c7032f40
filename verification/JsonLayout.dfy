/** JSON values with their white space, and that every such text is read back. */
module JsonLayout {
  import opened Wrappers
  import opened Numbers
  import opened JsonText

  /** A value and how it is laid out: white space after the opening bracket,
      after each comma, and before the closing one. */
  datatype Layout =
    | LNull
    | LBool(flag: bool)
    | LNum(n: nat)
    | LStr(str: string)
    | LArr(open: string, items: seq<Layout>, sep: string, close: string)
    | LObj(open: string, members: seq<Member>, sep: string, close: string)

  datatype Member = Member(name: string, value: Layout)

  predicate WellLaid(l: Layout) {
    match l
    case LArr(open, items, sep, close) =>
      AllWs(open) && AllWs(sep) && AllWs(close) && forall i :: 0 <= i < |items| ==> WellLaid(items[i])
    case LObj(open, members, sep, close) =>
      AllWs(open) && AllWs(sep) && AllWs(close) && forall i :: 0 <= i < |members| ==> WellLaid(members[i].value)
    case _ => true
  }

  /** The value, its layout forgotten. */
  function ValueOf(l: Layout): Value
    decreases l, 1
  {
    match l
    case LNull => JNull
    case LBool(b) => JBool(b)
    case LNum(n) => JNum(Decimal(n))
    case LStr(s) => JStr(s)
    case LArr(_, items, _, _) => JArr(Values(items))
    case LObj(_, members, _, _) => JObj(Pairs(members))
  }

  function Values(items: seq<Layout>): seq<Value>
    decreases items, 0
  {
    seq(|items|, i requires 0 <= i < |items| => ValueOf(items[i]))
  }

  function Pairs(members: seq<Member>): seq<(string, Value)>
    decreases members, 0
  {
    seq(|members|, i requires 0 <= i < |members| => (members[i].name, ValueOf(members[i].value)))
  }

  function Render(l: Layout): string
    decreases l, 1
  {
    match l
    case LNull => "null"
    case LBool(b) => if b then "true" else "false"
    case LNum(n) => Decimal(n)
    case LStr(s) => JsonString(s)
    case LArr(open, items, sep, close) => ['['] + open + (RenderItems(items, sep) + (close + [']']))
    case LObj(open, members, sep, close) => ['{'] + open + (RenderMembers(members, sep) + (close + ['}']))
  }

  /** The items, a comma and `sep` between two of them. */
  function RenderItems(items: seq<Layout>, sep: string): string
    decreases items, 0
  {
    if items == [] then ""
    else if |items| == 1 then Render(items[0])
    else Render(items[0]) + ([','] + sep + RenderItems(items[1..], sep))
  }

  function RenderMember(name: string, text: string): string {
    JsonString(name) + ([':', ' '] + text)
  }

  function RenderMembers(members: seq<Member>, sep: string): string
    decreases members, 0
  {
    if members == [] then ""
    else if |members| == 1 then RenderMember(members[0].name, Render(members[0].value))
    else RenderMember(members[0].name, Render(members[0].value)) + ([','] + sep + RenderMembers(members[1..], sep))
  }

  /** Text after which a number has certainly ended. */
  predicate Ends(rest: string) {
    rest == "" || IsWs(rest[0]) || rest[0] == ',' || rest[0] == ']' || rest[0] == '}'
  }

  // ------------------------------------------------------------ white space

  lemma {:induction false} SkipsWs(ws: string, s: string)
    requires AllWs(ws) && (s == "" || !IsWs(s[0]))
    ensures SkipWs(ws + s) == s
  {
    if ws == "" {
      assert ws + s == s;
    } else {
      assert ws[0] in ws && (ws + s)[1..] == ws[1..] + s;
      assert forall c :: c in ws[1..] ==> c in ws;
      SkipsWs(ws[1..], s);
    }
  }

  lemma EndsWithWs(ws: string, c: char, rest: string)
    requires AllWs(ws) && (c == ',' || c == ']' || c == '}')
    ensures Ends(ws + [c] + rest)
  {
    if ws != "" { assert ws[0] in ws; }
  }

  // --------------------------------------------------------------- numbers

  lemma {:induction false} DigitRunIs(digits: string, rest: string)
    requires AllDigits(digits) && (rest == "" || !IsDigit(rest[0]))
    ensures DigitRun(digits + rest) == |digits|
  {
    if digits == "" {
      assert digits + rest == rest;
    } else {
      assert digits[0] in digits && (digits + rest)[1..] == digits[1..] + rest;
      assert forall c :: c in digits[1..] ==> c in digits;
      DigitRunIs(digits[1..], rest);
    }
  }

  lemma NumberRunIs(digits: string, rest: string)
    requires Ends(rest) && digits != "" && AllDigits(digits) && (digits[0] == '0' ==> |digits| == 1)
    ensures NumberRun(digits + rest) == |digits|
  {
    var s := digits + rest;
    assert digits[0] in digits && s[0..] == s;
    DigitRunIs(digits, rest);
    assert s[|digits|..] == rest && rest[0..] == rest;
    assert FractionRun(rest) == 0 && ExponentRun(rest) == 0;
  }

  lemma NumberRead(n: nat, rest: string)
    requires Ends(rest)
    ensures ParseValue(Decimal(n) + rest) == Some((JNum(Decimal(n)), rest))
  {
    var digits := Decimal(n);
    DecimalStart(n);
    NumberRunIs(digits, rest);
    DigitStart(digits + rest);
    assert (digits + rest)[..|digits|] == digits && (digits + rest)[|digits|..] == rest;
  }

  lemma {:induction false} DecimalStart(n: nat)
    ensures Decimal(n)[0] == '0' ==> |Decimal(n)| == 1
    ensures IsDigit(Decimal(n)[0])
  {
    assert Decimal(n)[0] in Decimal(n);
  }

  lemma DigitStart(s: string)
    requires s != "" && IsDigit(s[0])
    ensures ParseValue(s) == if NumberRun(s) > 0 then Some((JNum(s[..NumberRun(s)]), s[NumberRun(s)..])) else None
  {
    NotALiteral(s);
  }

  lemma NotALiteral(s: string)
    requires s != "" && IsDigit(s[0])
    ensures !("null" <= s) && !("true" <= s) && !("false" <= s)
  {
  }

  // ------------------------------------------------------ text, regrouped

  lemma Bracketed(a: string, open: string, inner: string, close: string, b: string, rest: string)
    ensures (a + open + (inner + (close + b))) + rest == a + (open + (inner + (close + (b + rest))))
  {
  }

  lemma Listed(first: string, comma: string, sep: string, more: string, end: string)
    ensures (first + (comma + sep + more)) + end == first + (comma + (sep + (more + end)))
  {
  }

  lemma Named(name: string, colon: string, text: string, tail: string)
    ensures (name + (colon + text)) + tail == name + (colon + (text + tail))
  {
  }

  // ------------------------------------------------------ reading a layout

  /** A value starts with neither white space nor a closing bracket. */
  predicate Starts(s: string) {
    s != "" && !IsWs(s[0]) && s[0] != ']' && s[0] != '}'
  }

  lemma RenderStarts(l: Layout, rest: string)
    ensures Starts(Render(l) + rest)
  {
    if l.LNum? { DecimalStart(l.n); }
  }

  lemma ItemsStart(items: seq<Layout>, sep: string, rest: string)
    requires items != []
    ensures Starts(RenderItems(items, sep) + rest)
  {
    RenderStarts(items[0], "");
  }

  lemma LiteralRead(text: string, v: Value, rest: string)
    requires (text == "null" && v == JNull) || (text == "true" && v == JBool(true))
      || (text == "false" && v == JBool(false))
    ensures ParseValue(text + rest) == Some((v, rest))
  {
    assert (text + rest)[|text|..] == rest && text <= text + rest;
  }

  lemma LastElement(s: string, v: Value, close: string, rest: string)
    requires ParseValue(s) == Some((v, close + ([']'] + rest))) && AllWs(close)
    ensures ParseElements(s) == Some(([v], rest))
  {
    SkipsWs(close, [']'] + rest);
    assert ([']'] + rest)[1..] == rest;
  }

  lemma MoreElements(s: string, v: Value, sep: string, next: string, vs: seq<Value>, rest: string)
    requires ParseValue(s) == Some((v, [','] + (sep + next))) && AllWs(sep) && Starts(next)
    requires ParseElements(next) == Some((vs, rest))
    ensures ParseElements(s) == Some(([v] + vs, rest))
  {
    SkipsWs(sep, next);
    assert ([','] + (sep + next))[1..] == sep + next;
  }

  lemma ArrayRead(open: string, inner: string, items: seq<Value>, rest: string)
    requires AllWs(open) && Starts(inner) && ParseElements(inner) == Some((items, rest))
    ensures ParseValue(['['] + (open + inner)) == Some((JArr(items), rest))
  {
    SkipsWs(open, inner);
    assert (['['] + (open + inner))[1..] == open + inner;
  }

  lemma EmptyArrayRead(open: string, close: string, rest: string)
    requires AllWs(open) && AllWs(close)
    ensures ParseValue(['['] + (open + (close + ([']'] + rest)))) == Some((JArr([]), rest))
  {
    SkipsWs(open + close, [']'] + rest);
    assert open + (close + ([']'] + rest)) == (open + close) + ([']'] + rest);
    assert (['['] + (open + (close + ([']'] + rest))))[1..] == open + (close + ([']'] + rest));
    assert ([']'] + rest)[1..] == rest;
  }

  lemma LastMember(s: string, m: (string, Value), close: string, rest: string)
    requires ParseMember(s) == Some((m, close + (['}'] + rest))) && AllWs(close)
    ensures ParseMembers(s) == Some(([m], rest))
  {
    SkipsWs(close, ['}'] + rest);
    assert (['}'] + rest)[1..] == rest;
  }

  lemma MoreMembers(s: string, m: (string, Value), sep: string, next: string, ms: seq<(string, Value)>, rest: string)
    requires ParseMember(s) == Some((m, [','] + (sep + next))) && AllWs(sep) && Starts(next)
    requires ParseMembers(next) == Some((ms, rest))
    ensures ParseMembers(s) == Some(([m] + ms, rest))
  {
    SkipsWs(sep, next);
    assert ([','] + (sep + next))[1..] == sep + next;
  }

  lemma ObjectRead(open: string, inner: string, members: seq<(string, Value)>, rest: string)
    requires AllWs(open) && Starts(inner) && ParseMembers(inner) == Some((members, rest))
    ensures ParseValue(['{'] + (open + inner)) == Some((JObj(members), rest))
  {
    SkipsWs(open, inner);
    assert (['{'] + (open + inner))[1..] == open + inner;
  }

  lemma EmptyObjectRead(open: string, close: string, rest: string)
    requires AllWs(open) && AllWs(close)
    ensures ParseValue(['{'] + (open + (close + (['}'] + rest)))) == Some((JObj([]), rest))
  {
    SkipsWs(open + close, ['}'] + rest);
    assert open + (close + (['}'] + rest)) == (open + close) + (['}'] + rest);
    assert (['{'] + (open + (close + (['}'] + rest))))[1..] == open + (close + (['}'] + rest));
    assert (['}'] + rest)[1..] == rest;
  }

  lemma OneMember(name: string, text: string, v: Value, rest: string)
    requires Starts(text) && ParseValue(text) == Some((v, rest))
    ensures ParseMember(JsonString(name) + ([':', ' '] + text)) == Some(((name, v), rest))
  {
    var after := [':', ' '] + text;
    AfterColon(text);
    NameRead(name, after);
    MemberAt(JsonString(name) + after, name, after, text, v, rest);
  }

  lemma AfterColon(text: string)
    requires Starts(text)
    ensures var after := [':', ' '] + text; after != "" && after[0] == ':' && SkipWs(after[1..]) == text
  {
    assert ([':', ' '] + text)[1..] == [' '] + text;
    SkipsWs([' '], text);
  }

  lemma NameRead(name: string, after: string)
    ensures var s := JsonString(name) + after; s != "" && s[0] == '"' && ParseString(s[1..]) == Some((name, after))
  {
    StringRoundTrip(name, after);
  }

  lemma MemberAt(s: string, name: string, after: string, text: string, v: Value, rest: string)
    requires s != "" && s[0] == '"' && ParseString(s[1..]) == Some((name, after))
    requires after != "" && after[0] == ':' && SkipWs(after[1..]) == text && ParseValue(text) == Some((v, rest))
    ensures ParseMember(s) == Some(((name, v), rest))
  {
    assert SkipWs(after) == after;
  }

  /** Every layout is read back as its value, however it is spaced. */
  lemma {:induction false} RenderRead(l: Layout, rest: string)
    requires WellLaid(l) && Ends(rest)
    ensures ParseValue(Render(l) + rest) == Some((ValueOf(l), rest))
    decreases l, 1
  {
    match l
    case LNull => LiteralRead("null", JNull, rest);
    case LBool(b) => LiteralRead(if b then "true" else "false", JBool(b), rest);
    case LNum(n) => NumberRead(n, rest);
    case LStr(s) => StringRoundTrip(s, rest);
    case LArr(open, items, sep, close) =>
      if items != [] { ItemsRead(items, sep, close, rest); }
      ArrayLayoutRead(open, items, sep, close, rest);
    case LObj(open, members, sep, close) =>
      if members != [] { MembersRead(members, sep, close, rest); }
      ObjectLayoutRead(open, members, sep, close, rest);
  }

  lemma ArrayLayoutRead(open: string, items: seq<Layout>, sep: string, close: string, rest: string)
    requires AllWs(open) && AllWs(close)
    requires items != [] ==>
      ParseElements(RenderItems(items, sep) + (close + ([']'] + rest))) == Some((Values(items), rest))
    ensures ParseValue(Render(LArr(open, items, sep, close)) + rest) == Some((JArr(Values(items)), rest))
  {
    var inner := RenderItems(items, sep) + (close + ([']'] + rest));
    Bracketed(['['], open, RenderItems(items, sep), close, [']'], rest);
    if items == [] {
      assert inner == close + ([']'] + rest);
      EmptyArrayRead(open, close, rest);
      assert Values(items) == [];
    } else {
      ItemsStart(items, sep, close + ([']'] + rest));
      ArrayRead(open, inner, Values(items), rest);
    }
  }

  lemma ObjectLayoutRead(open: string, members: seq<Member>, sep: string, close: string, rest: string)
    requires AllWs(open) && AllWs(close)
    requires members != [] ==>
      ParseMembers(RenderMembers(members, sep) + (close + (['}'] + rest))) == Some((Pairs(members), rest))
    ensures ParseValue(Render(LObj(open, members, sep, close)) + rest) == Some((JObj(Pairs(members)), rest))
  {
    var inner := RenderMembers(members, sep) + (close + (['}'] + rest));
    Bracketed(['{'], open, RenderMembers(members, sep), close, ['}'], rest);
    if members == [] {
      assert RenderMembers(members, sep) == "" && Pairs(members) == [];
      assert inner == close + (['}'] + rest);
      EmptyObjectRead(open, close, rest);
    } else {
      MembersStart(members, sep, close + (['}'] + rest));
      ObjectRead(open, inner, Pairs(members), rest);
    }
  }

  lemma MembersStart(members: seq<Member>, sep: string, rest: string)
    requires members != []
    ensures Starts(RenderMembers(members, sep) + rest)
  {
  }

  lemma {:induction false} ItemsRead(items: seq<Layout>, sep: string, close: string, rest: string)
    requires items != [] && AllWs(sep) && AllWs(close) && forall i :: 0 <= i < |items| ==> WellLaid(items[i])
    ensures ParseElements(RenderItems(items, sep) + (close + ([']'] + rest))) == Some((Values(items), rest))
    decreases items, 0, 1
  {
    var end := close + ([']'] + rest);
    if |items| == 1 {
      LastItemRead(items, sep, close, rest);
    } else {
      var next := RenderItems(items[1..], sep) + end;
      RenderRead(items[0], [','] + (sep + next));
      ItemsRead(items[1..], sep, close, rest);
      MoreItemsRead(items, sep, end, rest);
    }
  }

  lemma {:induction false} LastItemRead(items: seq<Layout>, sep: string, close: string, rest: string)
    requires |items| == 1 && AllWs(close) && WellLaid(items[0])
    ensures ParseElements(RenderItems(items, sep) + (close + ([']'] + rest))) == Some((Values(items), rest))
    decreases items, 0, 0
  {
    var end := close + ([']'] + rest);
    EndsWithWs(close, ']', rest);
    assert close + [']'] + rest == end;
    RenderRead(items[0], end);
    LastElement(RenderItems(items, sep) + end, ValueOf(items[0]), close, rest);
    assert Values(items) == [ValueOf(items[0])];
  }

  lemma MoreItemsRead(items: seq<Layout>, sep: string, end: string, rest: string)
    requires |items| > 1 && AllWs(sep) && forall i :: 0 <= i < |items| ==> WellLaid(items[i])
    requires var next := RenderItems(items[1..], sep) + end;
      && ParseValue(Render(items[0]) + ([','] + (sep + next))) == Some((ValueOf(items[0]), [','] + (sep + next)))
      && ParseElements(next) == Some((Values(items[1..]), rest))
    ensures ParseElements(RenderItems(items, sep) + end) == Some((Values(items), rest))
  {
    var next := RenderItems(items[1..], sep) + end;
    Listed(Render(items[0]), [','], sep, RenderItems(items[1..], sep), end);
    ItemsStart(items[1..], sep, end);
    MoreElements(RenderItems(items, sep) + end, ValueOf(items[0]), sep, next, Values(items[1..]), rest);
    assert Values(items) == [ValueOf(items[0])] + Values(items[1..]);
  }

  lemma {:induction false} MembersRead(members: seq<Member>, sep: string, close: string, rest: string)
    requires members != [] && AllWs(sep) && AllWs(close) && forall i :: 0 <= i < |members| ==>
      WellLaid(members[i].value)
    ensures ParseMembers(RenderMembers(members, sep) + (close + (['}'] + rest))) == Some((Pairs(members), rest))
    decreases members, 0
  {
    var end := close + (['}'] + rest);
    if |members| == 1 {
      EndsWithWs(close, '}', rest);
      assert close + ['}'] + rest == end;
      RenderRead(members[0].value, end);
      OnlyMember(members, sep, close, rest);
    } else {
      RenderRead(members[0].value, [','] + (sep + (RenderMembers(members[1..], sep) + end)));
      MembersRead(members[1..], sep, close, rest);
      AnotherMember(members, sep, close, rest);
    }
  }

  lemma OnlyMember(members: seq<Member>, sep: string, close: string, rest: string)
    requires |members| == 1 && AllWs(close)
    requires ParseValue(Render(members[0].value)
      + (close + (['}'] + rest))) == Some((ValueOf(members[0].value), close + (['}'] + rest)))
    ensures ParseMembers(RenderMembers(members, sep) + (close + (['}'] + rest))) == Some((Pairs(members), rest))
  {
    var end := close + (['}'] + rest);
    FirstMember(members, sep, end, end);
    LastMember(RenderMembers(members, sep) + end, (members[0].name, ValueOf(members[0].value)), close, rest);
    assert Pairs(members) == [(members[0].name, ValueOf(members[0].value))];
  }

  lemma AnotherMember(members: seq<Member>, sep: string, close: string, rest: string)
    requires |members| > 1 && AllWs(sep)
    requires var tail := [','] + (sep + (RenderMembers(members[1..], sep) + (close + (['}'] + rest))));
      ParseValue(Render(members[0].value) + tail) == Some((ValueOf(members[0].value), tail))
    requires ParseMembers(RenderMembers(members[1..], sep) + (close + (['}'] + rest)))
      == Some((Pairs(members[1..]), rest))
    ensures ParseMembers(RenderMembers(members, sep) + (close + (['}'] + rest))) == Some((Pairs(members), rest))
  {
    var end, pair := close + (['}'] + rest), (members[0].name, ValueOf(members[0].value));
    var next := RenderMembers(members[1..], sep) + end;
    FirstMember(members, sep, end, [','] + (sep + next));
    MembersStart(members[1..], sep, end);
    MoreMembers(RenderMembers(members, sep) + end, pair, sep, next, Pairs(members[1..]), rest);
    PairsFirst(members);
  }

  lemma PairsFirst(members: seq<Member>)
    requires members != []
    ensures Pairs(members) == [(members[0].name, ValueOf(members[0].value))] + Pairs(members[1..])
  {
  }

  lemma FirstMember(members: seq<Member>, sep: string, end: string, tail: string)
    requires members != []
    requires tail == if |members| == 1 then end else [','] + (sep + (RenderMembers(members[1..], sep) + end))
    requires ParseValue(Render(members[0].value) + tail) == Some((ValueOf(members[0].value), tail))
    ensures ParseMember(RenderMembers(members, sep) + end) == Some(((members[0].name, ValueOf(members[0].value)), tail))
  {
    var name, l := members[0].name, members[0].value;
    RenderStarts(l, tail);
    OneMember(name, Render(l) + tail, ValueOf(l), tail);
    var text := RenderMember(name, Render(l));
    Named(JsonString(name), [':', ' '], Render(l), tail);
    if |members| > 1 {
      Listed(text, [','], sep, RenderMembers(members[1..], sep), end);
    }
    assert RenderMembers(members, sep) + end == text + tail;
  }
}
