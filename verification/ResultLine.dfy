/** The result lines a live suite prints, and how the runner reads them. */
module ResultLine {
  import opened Wrappers
  import opened Text
  import opened TextSearch
  import opened Numbers
  import opened Acceptance

  const REASON := "reason="

  function ParseStatus(value: string): Option<Status> {
    if value == "pass" then Some(Pass)
    else if value == "fail" then Some(Fail)
    else if value == "skipped" then Some(Skipped)
    else None
  }

  /** The fields by key, the last one winning; nothing when a token is no field. */
  function FieldMap(tokens: seq<string>): Option<map<string, string>> {
    if tokens == [] then Some(map[])
    else match FieldMap(tokens[..|tokens| - 1])
      case None => None
      case Some(before) =>
        match SplitOnce(tokens[|tokens| - 1], '=')
        case None => None
        case Some((key, value)) => Some(before[key := value])
  }

  function TargetOf(value: string): Option<string> {
    if value == "-" then None else Some(value)
  }

  /** The row made of a line's fields and reason. */
  function RowOf(values: map<string, string>, reason: string): Option<ResultRow> {
    if "scenario" !in values || "target" !in values || "status" !in values || "duration_ms" !in values then None
    else
      match (ParseStatus(values["status"]), ParseU64(values["duration_ms"]))
      case (Some(status), Some(duration)) =>
        if !status.Pass? && reason == "" then None
        else Some(ResultRow(values["scenario"], TargetOf(values["target"]), status, reason, duration))
      case _ => None
  }

  /** The field text and the reason of a line: what stands after the first
      `marker`, split at the first `reason=`. */
  function Pieces(marker: string, line: string): Option<(string, string)> {
    match Find(line, marker)
    case None => None
    case Some(start) =>
      var rest := TrimStart(line[start + |marker|..]);
      match Find(rest, REASON)
      case None => None
      case Some(at) => Some((rest[..at], Trim(rest[at + |REASON|..])))
  }

  /** What `line` reports. */
  function ParseLine(marker: string, line: string): Option<ResultRow> {
    match Pieces(marker, line)
    case None => None
    case Some((fields, reason)) =>
      match FieldMap(SplitWhitespace(fields))
      case None => None
      case Some(values) => RowOf(values, reason)
  }

  method ParseResultLine(marker: string, line: string) returns (row: Option<ResultRow>)
    ensures row == ParseLine(marker, line)
  {
    var pieces := ReadPieces(marker, line);
    if pieces.None? {
      return None;
    }
    var (fields, reason) := pieces.value;
    var values := ReadFields(SplitWhitespace(fields));
    if values.None? {
      return None;
    }
    return RowOf(values.value, reason);
  }

  method ReadPieces(marker: string, line: string) returns (pieces: Option<(string, string)>)
    ensures pieces == Pieces(marker, line)
  {
    var start := Find(line, marker);
    if start.None? {
      return None;
    }
    var rest := TrimStart(line[start.value + |marker|..]);
    var at := Find(rest, REASON);
    if at.None? {
      return None;
    }
    return Some((rest[..at.value], Trim(rest[at.value + |REASON|..])));
  }

  method ReadFields(tokens: seq<string>) returns (values: Option<map<string, string>>)
    ensures values == FieldMap(tokens)
  {
    var read: map<string, string> := map[];
    for i := 0 to |tokens|
      invariant FieldMap(tokens[..i]) == Some(read)
    {
      assert tokens[..i + 1][..i] == tokens[..i];
      var field := SplitOnce(tokens[i], '=');
      if field.None? {
        FieldMapFails(tokens, i + 1);
        return None;
      }
      read := read[field.value.0 := field.value.1];
    }
    assert tokens[..|tokens|] == tokens;
    return Some(read);
  }

  lemma {:induction false} FieldMapFails(tokens: seq<string>, n: nat)
    requires n <= |tokens| && FieldMap(tokens[..n]) == None
    ensures FieldMap(tokens) == None
    decreases |tokens| - n
  {
    if n == |tokens| {
      assert tokens[..n] == tokens;
    } else {
      assert tokens[..n + 1][..n] == tokens[..n];
      FieldMapFails(tokens, n + 1);
    }
  }

  // --------------------------------------------------------- round trip

  function TargetText(target: Option<string>): string {
    match target case None => "-" case Some(name) => name
  }

  /** The fields of a row, as a suite prints them. */
  function Tokens(row: ResultRow): seq<string> {
    var fields := Fields(row);
    seq(|fields|, i requires 0 <= i < |fields| => Token(fields[i].0, fields[i].1))
  }

  function Token(key: string, value: string): string {
    key + "=" + value
  }

  /** The four fields of a row. */
  function Fields(row: ResultRow): seq<(string, string)> {
    [("scenario", row.scenario), ("target", TargetText(row.target)), ("status", row.status.Id()),
      ("duration_ms", Decimal(row.durationMs))]
  }

  /** A line reporting `row`. */
  function PrintLine(prefix: string, marker: string, row: ResultRow): string {
    prefix + marker + " " + Spaced(Tokens(row)) + REASON + row.reason
  }

  /** What a row must be for its line to say it: one-token fields, a target not
      called `-`, a trimmed reason that only a pass may leave out. */
  predicate Printable(row: ResultRow) {
    && Dense(row.scenario) && !Contains(row.scenario, REASON)
    && Dense(TargetText(row.target)) && !Contains(TargetText(row.target), REASON) && row.target != Some("-")
    && row.durationMs < 0x1_0000_0000_0000_0000
    && Trimmed(row.reason) && (row.reason == "" ==> row.status.Pass?)
  }

  /** `needle` cannot start inside `p`, whatever follows. */
  predicate NoStart(p: string, needle: string)
    requires |needle| >= 2
  {
    forall i :: 0 <= i < |p| ==> NoStartAt(p, needle, i)
  }

  predicate NoStartAt(p: string, needle: string, i: nat)
    requires |needle| >= 2 && i < |p|
  {
    p[i] != needle[0] || (i + 1 < |p| && p[i + 1] != needle[1])
  }

  lemma {:induction false} AbsentBehind(p: string, s: string, needle: string)
    requires |needle| >= 2 && NoStart(p, needle) && !Contains(s, needle)
    ensures !Contains(p + s, needle)
  {
    if p == [] {
      assert p + s == s;
    } else {
      assert (p + s)[1..] == p[1..] + s && (p + s)[0] == p[0];
      assert |p| > 1 ==> (p + s)[1] == p[1];
      assert NoStartAt(p, needle, 0);
      forall i | 0 <= i < |p| - 1 ensures NoStartAt(p[1..], needle, i) {
        assert NoStartAt(p, needle, i + 1);
      }
      AbsentBehind(p[1..], s, needle);
    }
  }

  lemma {:induction false} DigitsAbsent(s: string)
    requires AllDigits(s)
    ensures !Contains(s, REASON) && Dense(s)
  {
    if s != [] {
      assert s[0] in s && forall c :: c in s[1..] ==> c in s;
      DigitsAbsent(s[1..]);
    }
  }

  lemma StatusAbsent(status: Status)
    ensures NoStart(status.Id(), REASON) && Dense(status.Id()) && ParseStatus(status.Id()) == Some(status)
    ensures !Contains(status.Id(), REASON)
  {
    AbsentBehind(status.Id(), "", REASON);
    assert status.Id() + "" == status.Id();
  }

  /** A field name whose tokens cannot be mistaken for the reason. */
  predicate FitKey(key: string) {
    key != "" && Dense(key) && NoStart(key + "=", REASON) && '=' !in key
  }

  /** A field is one token and does not contain the reason marker. */
  lemma FieldToken(key: string, value: string)
    requires FitKey(key) && Dense(value) && !Contains(value, REASON)
    ensures Token(key, value) != [] && Dense(Token(key, value)) && !Contains(Token(key, value), REASON)
    ensures SplitOnce(Token(key, value), '=') == Some((key, value))
  {
    AbsentBehind(key + "=", value, REASON);
    SplitOnceAt(key, '=', value);
    assert key + "=" + value == key + ['='] + value;
  }

  lemma ScenarioFits()
    ensures FitKey("scenario")
  {
  }

  lemma TargetFits()
    ensures FitKey("target")
  {
  }

  lemma StatusFits()
    ensures FitKey("status")
  {
  }

  lemma DurationFits()
    ensures FitKey("duration_ms")
  {
  }

  lemma FieldIsToken(row: ResultRow, i: nat)
    requires Printable(row) && i < 4
    ensures var (key, value) := Fields(row)[i]; FitKey(key) && Dense(value) && !Contains(value, REASON)
  {
    if i == 0 {
      ScenarioFits();
    } else if i == 1 {
      TargetFits();
    } else if i == 2 {
      StatusAbsent(row.status);
      StatusFits();
    } else {
      DigitsAbsent(Decimal(row.durationMs));
      DurationFits();
    }
  }

  lemma TokensAreFields(row: ResultRow)
    requires Printable(row)
    ensures |Tokens(row)| == 4
    ensures forall t :: t in Tokens(row) ==> t != [] && Dense(t) && !Contains(t, REASON)
    ensures forall i :: 0 <= i < 4 ==> SplitOnce(Tokens(row)[i], '=') == Some(Fields(row)[i])
  {
    forall i: nat | i < 4
      ensures Tokens(row)[i] != [] && Dense(Tokens(row)[i]) && !Contains(Tokens(row)[i], REASON)
      ensures SplitOnce(Tokens(row)[i], '=') == Some(Fields(row)[i])
    {
      FieldIsToken(row, i);
      FieldToken(Fields(row)[i].0, Fields(row)[i].1);
    }
  }

  lemma FieldMapOneMore(tokens: seq<string>, values: map<string, string>, key: string, value: string, token: string)
    requires FieldMap(tokens) == Some(values) && SplitOnce(token, '=') == Some((key, value))
    ensures FieldMap(tokens + [token]) == Some(values[key := value])
  {
    assert (tokens + [token])[..|tokens|] == tokens;
  }

  function FieldsTo(row: ResultRow, n: nat): map<string, string>
    requires n <= 4
  {
    if n == 0 then map[] else FieldsTo(row, n - 1)[Fields(row)[n - 1].0 := Fields(row)[n - 1].1]
  }

  lemma {:induction false} RowFields(row: ResultRow, n: nat)
    requires Printable(row) && n <= 4 && |Tokens(row)| == 4
    requires forall i :: 0 <= i < 4 ==> SplitOnce(Tokens(row)[i], '=') == Some(Fields(row)[i])
    ensures FieldMap(Tokens(row)[..n]) == Some(FieldsTo(row, n))
  {
    if n > 0 {
      RowFields(row, n - 1);
      FieldStep(Tokens(row), n - 1, FieldsTo(row, n - 1), Fields(row)[n - 1].0, Fields(row)[n - 1].1);
    }
  }

  lemma FieldStep(tokens: seq<string>, n: nat, values: map<string, string>, key: string, value: string)
    requires n < |tokens| && FieldMap(tokens[..n]) == Some(values) && SplitOnce(tokens[n], '=') == Some((key, value))
    ensures FieldMap(tokens[..n + 1]) == Some(values[key := value])
  {
    FieldMapOneMore(tokens[..n], values, key, value, tokens[n]);
    assert tokens[..n + 1] == tokens[..n] + [tokens[n]];
  }

  lemma FieldsFound(row: ResultRow)
    ensures var values := FieldsTo(row, 4);
      && "scenario" in values && values["scenario"] == row.scenario
      && "target" in values && values["target"] == TargetText(row.target)
      && "status" in values && values["status"] == row.status.Id()
      && "duration_ms" in values && values["duration_ms"] == Decimal(row.durationMs)
  {
    assert FieldsTo(row, 1) == FieldsTo(row, 0)["scenario" := row.scenario];
    assert FieldsTo(row, 2) == FieldsTo(row, 1)["target" := TargetText(row.target)];
    assert FieldsTo(row, 3) == FieldsTo(row, 2)["status" := row.status.Id()];
    assert FieldsTo(row, 4) == FieldsTo(row, 3)["duration_ms" := Decimal(row.durationMs)];
  }

  lemma RowRead(row: ResultRow)
    requires Printable(row)
    ensures RowOf(FieldsTo(row, 4), row.reason) == Some(row)
  {
    FieldsFound(row);
    StatusAbsent(row.status);
    DecimalRead(row.durationMs);
  }

  lemma DecimalRead(n: nat)
    requires n < 0x1_0000_0000_0000_0000
    ensures ParseU64(Decimal(n)) == Some(n)
  {
    DecimalValue(n);
    assert Decimal(n)[0] in Decimal(n);
  }

  lemma TrimmedIsKept(s: string)
    requires Trimmed(s)
    ensures Trim(s) == s
  {
  }

  /** The pieces of a line put together from parts. */
  lemma PiecesOfLine(
      line: string, prefix: string, marker: string, gap: string, body: string, tokens: seq<string>, tail: string,
      reason: string)
    requires line == prefix + marker + gap && TrimStart(gap) == body && body == Spaced(tokens) + tail
      && tail == REASON + reason
    requires marker != "" && Unbordered(marker) && !Contains(prefix, marker)
    requires forall t :: t in tokens ==> !Contains(t, REASON)
    requires Trimmed(reason)
    ensures Pieces(marker, line) == Some((Spaced(tokens), reason))
  {
    FindUnbordered(prefix, marker, gap);
    assert line[|prefix| + |marker|..] == gap;
    ReasonIsDense(tail, reason);
    FindAfterSpaced(tokens, REASON, tail);
    assert body[..|Spaced(tokens)|] == Spaced(tokens);
    AfterBoth(body, Spaced(tokens), REASON, reason);
    TrimmedIsKept(reason);
    PiecesAt(marker, line, |prefix|, body, |Spaced(tokens)|);
  }

  lemma ReasonIsDense(tail: string, reason: string)
    requires tail == REASON + reason
    ensures REASON != [] && ' ' !in REASON && REASON <= tail
  {
  }

  lemma AfterBoth(s: string, a: string, b: string, c: string)
    requires s == a + (b + c)
    ensures s[|a| + |b|..] == c
  {
  }

  lemma PiecesAt(marker: string, line: string, start: nat, body: string, at: nat)
    requires Find(line, marker) == Some(start) && TrimStart(line[start + |marker|..]) == body
      && Find(body, REASON) == Some(at)
    ensures Pieces(marker, line) == Some((body[..at], Trim(body[at + |REASON|..])))
  {
  }

  /** Result lines round trip: a printable row, after any prefix without the
      marker, is read back as it was. */
  lemma LineRoundTrip(prefix: string, marker: string, row: ResultRow)
    requires marker != "" && Unbordered(marker) && !Contains(prefix, marker) && Printable(row)
    ensures ParseLine(marker, PrintLine(prefix, marker, row)) == Some(row)
  {
    var tokens, tail := Tokens(row), REASON + row.reason;
    var body := Spaced(tokens) + tail;
    var gap := " " + body;
    TokensAreFields(row);
    Regrouped(prefix + marker, " ", Spaced(tokens), REASON, row.reason);
    assert tokens[0] in tokens;
    BodyStart(tokens, body);
    PiecesOfLine(PrintLine(prefix, marker, row), prefix, marker, gap, body, tokens, tail, row.reason);
    SplitSpaced(tokens);
    RowFields(row, 4);
    assert tokens[..4] == tokens;
    RowRead(row);
  }

  function Shown(status: Status): string {
    if status.Pass? then "pass" else if status.Fail? then "fail" else "skipped"
  }

  /** How the line of a row reads. */
  lemma LineReads(prefix: string, marker: string, row: ResultRow)
    ensures var target := if row.target.Some? then row.target.value else "-";
      PrintLine(prefix, marker, row) ==
        prefix + marker + " " + "scenario=" + row.scenario + " " + "target=" + target + " "
        + "status=" + Shown(row.status) + " " + "duration_ms=" + Decimal(row.durationMs) + " "
        + "reason=" + row.reason
  {
    var target := if row.target.Some? then row.target.value else "-";
    FieldsRead(row, target);
    FourJoined(prefix + marker + " ", "scenario=", row.scenario, "target=", target, "status=", Shown(row.status),
               "duration_ms=", Decimal(row.durationMs));
  }

  lemma FieldsRead(row: ResultRow, target: string)
    requires target == if row.target.Some? then row.target.value else "-"
    ensures Tokens(row) == ["scenario=" + row.scenario, "target=" + target, "status=" + Shown(row.status),
                            "duration_ms=" + Decimal(row.durationMs)]
  {
    KeysRead();
    assert |Fields(row)| == 4 && row.status.Id() == Shown(row.status);
    assert Tokens(row) == [Token("scenario", row.scenario), Token("target", target),
                           Token("status", Shown(row.status)), Token("duration_ms", Decimal(row.durationMs))];
  }

  lemma KeysRead()
    ensures "scenario" + "=" == "scenario=" && "target" + "=" == "target="
    ensures "status" + "=" == "status=" && "duration_ms" + "=" == "duration_ms="
  {
  }

  /** One token more, its key and its value apart. */
  lemma OneJoined(start: string, key: string, value: string, rest: seq<string>)
    ensures start + Spaced([key + value] + rest) == start + key + value + " " + Spaced(rest)
  {
    var tokens := [key + value] + rest;
    assert tokens[0] == key + value && tokens[1..] == rest;
  }

  lemma FourJoined(start: string, k1: string, v1: string, k2: string, v2: string, k3: string, v3: string,
                   k4: string, v4: string)
    ensures start + Spaced([k1 + v1, k2 + v2, k3 + v3, k4 + v4]) ==
      start + k1 + v1 + " " + k2 + v2 + " " + k3 + v3 + " " + k4 + v4 + " "
  {
    var after1 := start + k1 + v1 + " ";
    var after2 := after1 + k2 + v2 + " ";
    var after3 := after2 + k3 + v3 + " ";
    assert [k1 + v1, k2 + v2, k3 + v3, k4 + v4] == [k1 + v1] + [k2 + v2, k3 + v3, k4 + v4];
    assert [k2 + v2, k3 + v3, k4 + v4] == [k2 + v2] + [k3 + v3, k4 + v4];
    assert [k3 + v3, k4 + v4] == [k3 + v3] + [k4 + v4];
    OneJoined(start, k1, v1, [k2 + v2, k3 + v3, k4 + v4]);
    OneJoined(after1, k2, v2, [k3 + v3, k4 + v4]);
    OneJoined(after2, k3, v3, [k4 + v4]);
    OneJoined(after3, k4, v4, []);
  }

  lemma Regrouped(a: string, b: string, c: string, d: string, e: string)
    ensures a + b + c + d + e == a + (b + (c + (d + e)))
  {
  }

  lemma BodyStart(tokens: seq<string>, body: string)
    requires tokens != [] && tokens[0] != [] && Dense(tokens[0]) && Spaced(tokens) <= body
    ensures TrimStart(" " + body) == body
  {
    assert body[0] == Spaced(tokens)[0] == tokens[0][0] && tokens[0][0] in tokens[0];
    assert (" " + body)[1..] == body;
  }

  // ------------------------------------------------------------ converse

  /** Whatever line is accepted: after its marker stand all four fields, as
      tokens, and a row that is not a pass has a reason. */
  lemma AcceptedLine(marker: string, line: string, row: ResultRow) returns (target: string, duration: string)
    requires ParseLine(marker, line) == Some(row)
    ensures Pieces(marker, line).Some?
    ensures var tokens := SplitWhitespace(Pieces(marker, line).value.0);
      && Holds(tokens, "scenario", row.scenario) && Holds(tokens, "status", Shown(row.status))
      && Holds(tokens, "target", target) && Holds(tokens, "duration_ms", duration)
    ensures row.target == (if target == "-" then None else Some(target)) && ParseU64(duration) == Some(row.durationMs)
    ensures row.reason == Pieces(marker, line).value.1 && (row.status.Pass? || row.reason != "")
  {
    var (fields, reason) := Pieces(marker, line).value;
    var tokens := SplitWhitespace(fields);
    var values := FieldMap(tokens).value;
    FieldMapHolds(tokens);
    StatusText(values["status"]);
    target, duration := values["target"], values["duration_ms"];
  }

  /** `key=value` is one of the tokens. */
  predicate Holds(tokens: seq<string>, key: string, value: string) {
    Token(key, value) in tokens
  }

  lemma StatusText(value: string)
    requires ParseStatus(value).Some?
    ensures ParseStatus(value).value.Id() == value
  {
  }

  lemma {:induction false} FieldMapHolds(tokens: seq<string>)
    requires FieldMap(tokens).Some?
    ensures forall key :: key in FieldMap(tokens).value ==> Holds(tokens, key, FieldMap(tokens).value[key])
  {
    if tokens != [] {
      var before, last := tokens[..|tokens| - 1], tokens[|tokens| - 1];
      FieldMapHolds(before);
      var (key, value) := SplitOnce(last, '=').value;
      assert last == Token(key, value) && last in tokens;
      assert forall t :: t in before ==> t in tokens;
    }
  }
}
