/** What the scrubber of `user:password@` userinfo does to a text of many words, and
    to passwords that contain at signs and colons. */
module RedactionRules {
  import opened Wrappers
  import opened TextSearch
  import opened Redaction

  // ------------------------------------- the text before an end delimiter

  lemma {:induction false} NextAtBefore(text: string, n: nat, from: nat)
    requires from <= n <= |text|
    ensures NextAt(text[..n], from).Some? ==> NextAt(text, from) == NextAt(text[..n], from)
    ensures NextAt(text[..n], from).None? ==> forall k :: from <= k < n ==> text[k] != '@'
    decreases n - from
  {
    if from < n && text[from] != '@' { NextAtBefore(text, n, from + 1); }
  }

  lemma {:induction false} TokenStartBefore(white: White, text: string, n: nat, at: nat)
    requires at <= n <= |text|
    ensures TokenStart(white, text[..n], at) == TokenStart(white, text, at)
  {
    if at > 0 && !StartsToken(white, text[at - 1]) { TokenStartBefore(white, text, n, at - 1); }
  }

  lemma {:induction false} FirstColonBefore(text: string, n: nat, from: nat, to: nat)
    requires from <= to <= n <= |text|
    ensures FirstColon(text[..n], from, to) == FirstColon(text, from, to)
  {
    if from < to { FirstColonBefore(text, n, from, to - 1); }
  }

  lemma {:induction false} CredentialEndBefore(white: White, text: string, n: nat, at: nat)
    requires at <= n < |text| && EndsCredential(white, text[n])
    ensures CredentialEnd(white, text[..n], at) == CredentialEnd(white, text, at)
    decreases n - at
  {
    if at < n && !EndsCredential(white, text[at]) { CredentialEndBefore(white, text, n, at + 1); }
  }

  lemma {:induction false} LastAtBefore(text: string, n: nat, at: nat, end: nat)
    requires at < end <= n <= |text| && text[at] == '@'
    ensures LastAt(text[..n], at, end) == LastAt(text, at, end)
  {
    if text[end - 1] != '@' { LastAtBefore(text, n, at, end - 1); }
  }

  lemma SliceBefore(text: string, n: nat, i: nat, j: nat)
    requires i <= j <= n <= |text|
    ensures text[..n][i..j] == text[i..j]
  {
  }

  lemma PasswordBefore(white: White, text: string, n: nat, at: nat)
    requires at < n <= |text|
    ensures HasPassword(white, text[..n], at) == HasPassword(white, text, at)
  {
    TokenStartBefore(white, text, n, at);
    FirstColonBefore(text, n, TokenStart(white, text, at), at);
  }

  lemma EndsLater(white: White, text: string, at: nat)
    requires at < |text| && text[at] == '@'
    ensures at < CredentialEnd(white, text, at)
  {
    assert !EndsCredential(white, text[at]);
  }

  /** What follows the credential in its word. */
  function HostAfter(white: White, text: string, at: nat): string
    requires at < |text| && text[at] == '@'
  {
    var end := CredentialEnd(white, text, at);
    text[LastAt(text, at, end) + 1..end]
  }

  function Between(text: string, from: nat, to: nat): string
    requires to <= |text|
  {
    if from < to then text[from..to] else ""
  }

  lemma MaskIs(white: White, text: string, search: nat, at: nat, first: string, host: string)
    requires search <= at < |text| && text[at] == '@'
    requires first == Between(text, search, TokenStart(white, text, at)) && host == HostAfter(white, text, at)
    ensures Masked(white, text, search, at) == first + "***@" + host
  {
  }

  lemma HostBefore(white: White, text: string, n: nat, at: nat)
    requires at < n < |text| && text[at] == '@' && EndsCredential(white, text[n])
    ensures HostAfter(white, text[..n], at) == HostAfter(white, text, at)
    ensures CredentialEnd(white, text[..n], at) == CredentialEnd(white, text, at) <= n
  {
    var end := CredentialEnd(white, text[..n], at);
    CredentialEndBefore(white, text, n, at);
    EndsLater(white, text, at);
    LastAtBefore(text, n, at, end);
    SliceBefore(text, n, LastAt(text, at, end) + 1, end);
  }

  lemma MaskedBefore(white: White, text: string, n: nat, search: nat, at: nat)
    requires search <= at < n < |text| && text[at] == '@' && EndsCredential(white, text[n])
    ensures Masked(white, text[..n], search, at) == Masked(white, text, search, at)
    ensures CredentialEnd(white, text[..n], at) == CredentialEnd(white, text, at) <= n
  {
    var start, host := TokenStart(white, text, at), HostAfter(white, text, at);
    var first := Between(text, search, start);
    TokenStartBefore(white, text, n, at);
    HostBefore(white, text, n, at);
    if search < start { SliceBefore(text, n, search, start); }
    MaskIs(white, text[..n], search, at, first, host);
    MaskIs(white, text, search, at, first, host);
  }

  /** What is written at an at sign does not depend on what follows the delimiter. */
  lemma PieceBefore(white: White, text: string, n: nat, search: nat, at: nat)
    requires search <= at < n < |text| && text[at] == '@' && EndsCredential(white, text[n])
    ensures PieceAt(white, text[..n], search, at) == PieceAt(white, text, search, at)
    ensures ResumeAt(white, text[..n], at) == ResumeAt(white, text, at) <= n
  {
    PasswordBefore(white, text, n, at);
    MaskedBefore(white, text, n, search, at);
    SliceBefore(text, n, search, at + 1);
  }

  // -------------------------------------- the text after a start delimiter

  lemma {:induction false} NextAtAfter(text: string, m: nat, from: nat)
    requires m <= |text| && from <= |text| - m
    ensures NextAt(text, m + from) ==
      match NextAt(text[m..], from) case Some(at) => Some(m + at) case None => None
    decreases |text| - from
  {
    if from < |text| - m && text[m + from] != '@' { NextAtAfter(text, m, from + 1); }
  }

  lemma {:induction false} TokenStartAfter(white: White, text: string, m: nat, at: nat)
    requires 0 < m <= |text| && at <= |text| - m && StartsToken(white, text[m - 1])
    ensures TokenStart(white, text, m + at) == m + TokenStart(white, text[m..], at)
  {
    if at > 0 && !StartsToken(white, text[m + at - 1]) { TokenStartAfter(white, text, m, at - 1); }
  }

  lemma {:induction false} FirstColonAfter(text: string, m: nat, from: nat, to: nat)
    requires m <= |text| && from <= to <= |text| - m
    ensures FirstColon(text, m + from, m + to) ==
      match FirstColon(text[m..], from, to) case Some(colon) => Some(m + colon) case None => None
  {
    if from < to { FirstColonAfter(text, m, from, to - 1); }
  }

  lemma {:induction false} CredentialEndAfter(white: White, text: string, m: nat, at: nat)
    requires m <= |text| && at <= |text| - m
    ensures CredentialEnd(white, text, m + at) == m + CredentialEnd(white, text[m..], at)
    decreases |text| - at
  {
    if at < |text| - m && !EndsCredential(white, text[m + at]) { CredentialEndAfter(white, text, m, at + 1); }
  }

  lemma {:induction false} LastAtAfter(text: string, m: nat, at: nat, end: nat)
    requires m <= |text| && at < end <= |text| - m && text[m + at] == '@'
    ensures LastAt(text, m + at, m + end) == m + LastAt(text[m..], at, end)
  {
    if text[m + end - 1] != '@' { LastAtAfter(text, m, at, end - 1); }
  }

  lemma SliceAfter(text: string, m: nat, rest: string, i: nat, j: nat, from: nat, to: nat)
    requires m <= |text| && rest == text[m..] && i <= j <= |rest| && from == m + i && to == m + j
    ensures rest[i..j] == text[from..to]
  {
  }

  lemma PasswordIsAfter(white: White, text: string, m: nat, rest: string, at: nat, other: nat)
    requires 0 < m <= |text| && StartsToken(white, text[m - 1]) && rest == text[m..] && at < |rest| && other == m + at
    ensures HasPassword(white, text, other) == HasPassword(white, rest, at)
  {
    TokenStartAfter(white, text, m, at);
    FirstColonAfter(text, m, TokenStart(white, rest, at), at);
  }

  lemma HostIsAfter(white: White, text: string, m: nat, rest: string, at: nat, other: nat)
    requires m <= |text| && rest == text[m..] && at < |rest| && rest[at] == '@' && other == m + at
    ensures other < |text| && text[other] == '@'
    ensures HostAfter(white, text, other) == HostAfter(white, rest, at)
    ensures CredentialEnd(white, text, other) == m + CredentialEnd(white, rest, at)
  {
    var from, end, begin, stop := HostPlaces(white, text, m, rest, at, other);
    SliceAfter(text, m, rest, from, end, begin, stop);
    HostIs(white, rest, at, from, end);
    HostIs(white, text, other, begin, stop);
  }

  lemma HostIs(white: White, text: string, at: nat, from: nat, end: nat)
    requires at < end <= |text| && text[at] == '@' && end == CredentialEnd(white, text, at)
    requires from == LastAt(text, at, end) + 1
    ensures HostAfter(white, text, at) == text[from..end]
  {
  }

  lemma HostPlaces(white: White, text: string, m: nat, rest: string, at: nat, other: nat)
      returns (from: nat, end: nat, begin: nat, stop: nat)
    requires m <= |text| && rest == text[m..] && at < |rest| && rest[at] == '@' && other == m + at
    ensures at < end <= |rest| && end == CredentialEnd(white, rest, at) && from == LastAt(rest, at, end) + 1
    ensures other < stop <= |text| && stop == CredentialEnd(white, text, other) && text[other] == '@'
    ensures begin == LastAt(text, other, stop) + 1 && begin == m + from && stop == m + end
  {
    end := CredentialEnd(white, rest, at);
    CredentialEndAfter(white, text, m, at);
    EndsLater(white, rest, at);
    LastAtAfter(text, m, at, end);
    from := LastAt(rest, at, end) + 1;
    begin, stop := m + from, m + end;
  }

  lemma FirstIsAfter(white: White, text: string, m: nat, rest: string, search: nat, at: nat, from: nat, other: nat)
    requires 0 < m <= |text| && StartsToken(white, text[m - 1]) && rest == text[m..]
    requires search <= at <= |rest| && from == m + search && other == m + at
    ensures Between(text, from, TokenStart(white, text, other)) == Between(rest, search, TokenStart(white, rest, at))
  {
    TokenStartAfter(white, text, m, at);
    var start := TokenStart(white, rest, at);
    var begin := m + start;
    if search < start { SliceAfter(text, m, rest, search, start, from, begin); }
  }

  lemma MaskedAfter(white: White, text: string, m: nat, rest: string, search: nat, at: nat, from: nat, other: nat)
    requires 0 < m <= |text| && StartsToken(white, text[m - 1]) && rest == text[m..]
    requires search <= at < |rest| && rest[at] == '@' && from == m + search && other == m + at
    ensures from <= other < |text| && text[other] == '@'
    ensures Masked(white, text, from, other) == Masked(white, rest, search, at)
    ensures CredentialEnd(white, text, other) == m + CredentialEnd(white, rest, at)
  {
    HostIsAfter(white, text, m, rest, at, other);
    FirstIsAfter(white, text, m, rest, search, at, from, other);
    var first, host := Between(rest, search, TokenStart(white, rest, at)), HostAfter(white, rest, at);
    MaskIs(white, rest, search, at, first, host);
    MaskIs(white, text, from, other, first, host);
  }

  lemma KeptPiece(white: White, text: string, search: nat, at: nat, next: nat)
    requires search <= at < |text| && text[at] == '@' && !HasPassword(white, text, at) && next == at + 1
    ensures PieceAt(white, text, search, at) == text[search..next] && ResumeAt(white, text, at) == next
  {
  }

  lemma PieceAfter(white: White, text: string, m: nat, rest: string, search: nat, at: nat, from: nat, other: nat)
    requires 0 < m <= |text| && StartsToken(white, text[m - 1]) && rest == text[m..]
    requires search <= at < |rest| && rest[at] == '@' && from == m + search && other == m + at
    ensures from <= other < |text| && text[other] == '@'
    ensures PieceAt(white, text, from, other) == PieceAt(white, rest, search, at)
    ensures ResumeAt(white, text, other) == m + ResumeAt(white, rest, at)
  {
    PasswordIsAfter(white, text, m, rest, at, other);
    var next, resumed := at + 1, other + 1;
    if HasPassword(white, rest, at) {
      MaskedAfter(white, text, m, rest, search, at, from, other);
    } else {
      assert other < |text| && text[other] == '@';
      SliceAfter(text, m, rest, search, next, from, resumed);
      KeptPiece(white, rest, search, at, next);
      KeptPiece(white, text, from, other, resumed);
    }
  }

  lemma TailAfterDelimiter(text: string, m: nat, search: nat)
    requires m <= |text| && search <= |text| - m
    ensures text[m + search..] == text[m..][search..]
  {
  }

  /** Two texts with the same piece, and then the same. */
  lemma SamePiece(white: White, a: string, s: nat, at: nat, b: string, u: nat, other: nat)
    requires s <= at < |a| && NextAt(a, s) == Some(at) && u <= other < |b| && NextAt(b, u) == Some(other)
    requires PieceAt(white, a, s, at) == PieceAt(white, b, u, other)
    requires RedactedFrom(white, a, ResumeAt(white, a, at)) == RedactedFrom(white, b, ResumeAt(white, b, other))
    ensures RedactedFrom(white, a, s) == RedactedFrom(white, b, u)
  {
  }

  /** Places in a text and in what follows a delimiter. */
  lemma StepAfter(white: White, text: string, m: nat, rest: string, search: nat, from: nat)
      returns (at: nat, other: nat, next: nat, resumed: nat)
    requires 0 < m <= |text| && StartsToken(white, text[m - 1]) && rest == text[m..]
    requires search <= |rest| && from == m + search && NextAt(rest, search).Some?
    ensures search <= at < |rest| && NextAt(rest, search) == Some(at)
    ensures from <= other < |text| && NextAt(text, from) == Some(other)
    ensures PieceAt(white, text, from, other) == PieceAt(white, rest, search, at)
    ensures next == ResumeAt(white, rest, at) && resumed == ResumeAt(white, text, other)
    ensures search < next <= |rest| && resumed == m + next
  {
    NextAtAfter(text, m, search);
    at := NextAt(rest, search).value;
    other := m + at;
    PieceAfter(white, text, m, rest, search, at, from, other);
    next, resumed := ResumeAt(white, rest, at), ResumeAt(white, text, other);
  }

  lemma NoneAfter(white: White, text: string, m: nat, rest: string, search: nat, from: nat)
    requires m <= |text| && rest == text[m..] && search <= |rest| && from == m + search && NextAt(rest, search).None?
    ensures RedactedFrom(white, text, from) == RedactedFrom(white, rest, search)
  {
    NextAtAfter(text, m, search);
    NonePiece(white, rest, search);
    NonePiece(white, text, from);
    TailAfterDelimiter(text, m, search);
  }

  /** After a delimiter the rest is redacted as if it stood alone. */
  lemma {:induction false} RestAlone(white: White, text: string, m: nat, rest: string, search: nat, from: nat)
    requires 0 < m <= |text| && StartsToken(white, text[m - 1]) && rest == text[m..]
    requires search <= |rest| && from == m + search
    ensures RedactedFrom(white, text, from) == RedactedFrom(white, rest, search)
    decreases |rest| - search
  {
    if NextAt(rest, search).None? {
      NoneAfter(white, text, m, rest, search, from);
    } else {
      var at, other, next, resumed := StepAfter(white, text, m, rest, search, from);
      RestAlone(white, text, m, rest, next, resumed);
      SamePiece(white, text, from, other, rest, search, at);
    }
  }

  /** Text without an at sign is copied up to a delimiter. */
  lemma CopiedTo(white: White, text: string, search: nat, m: nat)
    requires search <= m <= |text| && 0 < m && StartsToken(white, text[m - 1])
    requires forall k :: search <= k < m ==> text[k] != '@'
    ensures RedactedFrom(white, text, search) == text[search..m] + RedactedFrom(white, text, m)
  {
    SkipsTo(text, search, m);
    match NextAt(text, m)
    case None => assert text[search..] == text[search..m] + text[m..];
    case Some(at) =>
      StartsLater(white, text, m, at);
      Copied(white, text, search, m, at);
      Grouped(text[search..m], PieceAt(white, text, m, at), RedactedFrom(white, text, ResumeAt(white, text, at)));
  }

  lemma {:induction false} SkipsTo(text: string, search: nat, m: nat)
    requires search <= m <= |text| && forall k :: search <= k < m ==> text[k] != '@'
    ensures NextAt(text, search) == NextAt(text, m)
    decreases m - search
  {
    if search < m { SkipsTo(text, search + 1, m); }
  }

  lemma StartsLater(white: White, text: string, m: nat, at: nat)
    requires 0 < m <= at <= |text| && StartsToken(white, text[m - 1])
    ensures TokenStart(white, text, at) >= m
  {
  }

  lemma Slices(text: string, i: nat, j: nat, k: nat)
    requires i <= j <= k <= |text|
    ensures text[i..k] == text[i..j] + text[j..k]
  {
  }

  /** The part before the token is copied. */
  lemma CopiedMask(white: White, text: string, search: nat, m: nat, at: nat)
    requires search <= m <= at < |text| && text[at] == '@' && TokenStart(white, text, at) >= m
    ensures Masked(white, text, search, at) == text[search..m] + Masked(white, text, m, at)
  {
    var start, host := TokenStart(white, text, at), HostAfter(white, text, at);
    Slices(text, search, m, start);
    MaskIs(white, text, search, at, text[search..start], host);
    MaskIs(white, text, m, at, text[m..start], host);
    CopiedParts(text[search..m], text[m..start], text[search..start], host);
  }

  lemma CopiedParts(a: string, b: string, both: string, host: string)
    requires both == a + b
    ensures both + "***@" + host == a + (b + "***@" + host)
  {
  }

  lemma Copied(white: White, text: string, search: nat, m: nat, at: nat)
    requires search <= m <= at < |text| && text[at] == '@' && TokenStart(white, text, at) >= m
    ensures PieceAt(white, text, search, at) == text[search..m] + PieceAt(white, text, m, at)
  {
    CopiedMask(white, text, search, m, at);
    Slices(text, search, m, at + 1);
  }

  lemma Grouped(a: string, b: string, c: string)
    ensures (a + b) + c == a + (b + c)
  {
  }

  // ------------------------------------------------------------ word by word

  /** What is written from the delimiter on. */
  function FromDelimiter(white: White, text: string, n: nat): string
    requires n < |text|
  {
    [text[n]] + RedactedFrom(white, text[n + 1..], 0)
  }

  lemma DelimiterIsNoAt(white: White, text: string, search: nat, n: nat)
    requires search <= n < |text| && EndsCredential(white, text[n])
    requires forall k :: search <= k < n ==> text[k] != '@'
    ensures StartsToken(white, text[n]) && forall k :: search <= k < n + 1 ==> text[k] != '@'
  {
    assert !EndsCredential(white, '@');
  }

  lemma Regrouped(text: string, search: nat, n: nat, rest: string)
    requires search <= n < |text|
    ensures text[search..n + 1] + rest == text[search..n] + ([text[n]] + rest)
  {
  }

  lemma CopiedPast(white: White, text: string, search: nat, n: nat)
    requires search <= n < |text| && EndsCredential(white, text[n])
    requires forall k :: search <= k < n ==> text[k] != '@'
    ensures RedactedFrom(white, text, search) == text[search..n] + FromDelimiter(white, text, n)
  {
    DelimiterIsNoAt(white, text, search, n);
    CopiedTo(white, text, search, n + 1);
    RestAlone(white, text, n + 1, text[n + 1..], 0, n + 1);
    Regrouped(text, search, n, RedactedFrom(white, text, n + 1));
  }

  lemma {:induction false} SplitsFrom(white: White, text: string, n: nat, search: nat)
    requires search <= n < |text| && EndsCredential(white, text[n])
    ensures RedactedFrom(white, text, search) == RedactedFrom(white, text[..n], search) + FromDelimiter(white, text, n)
    decreases n - search
  {
    var found := NextAt(text[..n], search);
    NextAtBefore(text, n, search);
    if found.None? {
      CopiedPast(white, text, search, n);
      SliceBefore(text, n, search, n);
    } else {
      PieceBefore(white, text, n, search, found.value);
      var next := ResumeAt(white, text, found.value);
      SplitsFrom(white, text, n, next);
      var piece, tail := OnePiece(white, text[..n], search, found.value);
      var piece2, tail2 := OnePiece(white, text, search, found.value);
      Grouped(piece, tail, FromDelimiter(white, text, n));
    }
  }

  lemma NonePiece(white: White, text: string, search: nat)
    requires search <= |text| && NextAt(text, search).None?
    ensures RedactedFrom(white, text, search) == text[search..]
  {
  }

  lemma OnePiece(white: White, text: string, search: nat, at: nat) returns (piece: string, tail: string)
    requires search <= at < |text| && NextAt(text, search) == Some(at)
    ensures RedactedFrom(white, text, search) == piece + tail
    ensures piece == PieceAt(white, text, search, at) && tail == RedactedFrom(white, text, ResumeAt(white, text, at))
  {
    piece, tail := PieceAt(white, text, search, at), RedactedFrom(white, text, ResumeAt(white, text, at));
  }

  /** White space and quotes separate: the text on either side is redacted as if it
      stood alone. */
  lemma RedactedApart(before: string, delimiter: char, after: string)
    requires IsWhitespace(delimiter) || delimiter == '"' || delimiter == '\''
    ensures Redacted(before + [delimiter] + after) == Redacted(before) + [delimiter] + Redacted(after)
  {
    var text, n := before + [delimiter] + after, |before|;
    assert text[..n] == before && text[n] == delimiter && text[n + 1..] == after;
    SplitsFrom(IsWhitespace, text, n, 0);
    Grouped(Redacted(before), [delimiter], Redacted(after));
  }

  // --------------------------------------------------------------- one word

  /** At signs without a password before them are copied. */
  lemma {:induction false} CleanTo(white: White, text: string, search: nat, n: nat) returns (q: nat)
    requires search <= n <= |text|
    requires forall k :: search <= k < n && text[k] == '@' ==> !HasPassword(white, text, k)
    ensures search <= q <= n && forall k :: q <= k < n ==> text[k] != '@'
    ensures RedactedFrom(white, text, search) == text[search..q] + RedactedFrom(white, text, q)
    decreases n - search
  {
    var found := NextAt(text, search);
    if found.None? || found.value >= n {
      q := search;
    } else {
      var next := found.value + 1;
      q := CleanTo(white, text, next, n);
      KeptAt(white, text, search, found.value, next);
      Slices(text, search, next, q);
      Grouped(text[search..next], text[next..q], RedactedFrom(white, text, q));
    }
  }

  lemma KeptAt(white: White, text: string, search: nat, at: nat, next: nat)
    requires search <= at < |text| && NextAt(text, search) == Some(at) && !HasPassword(white, text, at) && next == at + 1
    ensures RedactedFrom(white, text, search) == text[search..next] + RedactedFrom(white, text, next)
  {
    var piece := PieceAt(white, text, search, at);
    Unfolded(white, text, search, at, piece, next);
  }

  lemma Unfolded(white: White, text: string, search: nat, at: nat, piece: string, next: nat)
    requires search <= at < |text| && NextAt(text, search) == Some(at)
    requires piece == PieceAt(white, text, search, at) && next == ResumeAt(white, text, at)
    ensures RedactedFrom(white, text, search) == piece + RedactedFrom(white, text, next)
  {
  }

  /** A user and a password in the token before an at sign, and where they end. */
  predicate CredentialIn(white: White, text: string, start: nat, colon: nat, at: nat, last: nat) {
    && start < colon && colon + 1 < at <= last < |text| && text[colon] == ':' && text[at] == '@' && text[last] == '@'
    && (start > 0 ==> StartsToken(white, text[start - 1]))
    && (forall k :: start <= k < at ==> !StartsToken(white, text[k]) && text[k] != '@')
    && (forall k :: start <= k < colon ==> text[k] != ':')
    && (forall k :: at <= k < |text| ==> !EndsCredential(white, text[k]))
    && forall k :: last < k < |text| ==> text[k] != '@'
  }

  lemma CredentialSeen(white: White, text: string, start: nat, colon: nat, at: nat, last: nat)
    requires CredentialIn(white, text, start, colon, at, last)
    ensures TokenStart(white, text, at) == start && FirstColon(text, start, at) == Some(colon)
    ensures CredentialEnd(white, text, at) == |text| && LastAt(text, at, |text|) == last
    ensures HasPassword(white, text, at)
  {
    var found := TokenStart(white, text, at);
    assert found <= start;
    assert start <= found;
  }

  /** The user, the password and every at sign in it are masked, whatever stands
      before the token. */
  lemma TokenMasked(white: White, text: string, start: nat, colon: nat, at: nat, last: nat)
    requires CredentialIn(white, text, start, colon, at, last)
    requires forall k :: 0 <= k < start && text[k] == '@' ==> !HasPassword(white, text, k)
    ensures RedactedFrom(white, text, 0) == text[..start] + "***@" + text[last + 1..]
  {
    CredentialSeen(white, text, start, colon, at, last);
    var q := CleanTo(white, text, 0, start);
    FirstAfter(white, text, q, start, colon, at, last);
    MaskedTail(white, text, q, start, at, last);
    WholeMask(text, q, start, text[last + 1..], RedactedFrom(white, text, q));
  }

  lemma FirstAfter(white: White, text: string, q: nat, start: nat, colon: nat, at: nat, last: nat)
    requires CredentialIn(white, text, start, colon, at, last) && q <= start
    requires forall k :: q <= k < start ==> text[k] != '@'
    ensures NextAt(text, q) == Some(at)
  {
    FirstIs(text, q, at);
  }

  lemma WholeMask(text: string, q: nat, start: nat, host: string, rest: string)
    requires q <= start <= |text| && rest == text[q..start] + "***@" + host
    ensures text[0..q] + rest == text[..start] + "***@" + host
  {
    assert text[0..q] + text[q..start] == text[..start];
    CopiedParts(text[0..q], text[q..start], text[..start], host);
  }

  lemma {:induction false} FirstIs(text: string, search: nat, at: nat)
    requires search <= at < |text| && text[at] == '@' && forall k :: search <= k < at ==> text[k] != '@'
    ensures NextAt(text, search) == Some(at)
  {
  }

  lemma MaskedTail(white: White, text: string, q: nat, start: nat, at: nat, last: nat)
    requires q <= start <= at <= last < |text| && text[at] == '@' && NextAt(text, q) == Some(at)
    requires HasPassword(white, text, at) && TokenStart(white, text, at) == start
    requires CredentialEnd(white, text, at) == |text| && LastAt(text, at, |text|) == last
    ensures RedactedFrom(white, text, q) == text[q..start] + "***@" + text[last + 1..]
  {
    assert HostAfter(white, text, at) == text[last + 1..];
    MaskIs(white, text, q, at, text[q..start], text[last + 1..]);
    assert RedactedFrom(white, text, |text|) == "";
  }

  predicate OneWord(s: string) {
    forall c :: c in s ==> !IsWhitespace(c) && c != '"' && c != '\''
  }

  /** What comes before a token: nothing, or up to a delimiter. */
  predicate BeforeToken(s: string) {
    s == "" || IsWhitespace(s[|s| - 1]) || s[|s| - 1] == '/' || s[|s| - 1] == '"' || s[|s| - 1] == '\''
  }

  /** A user and a password before a host, in one word. */
  function Word(before: string, user: string, password: string, host: string): string {
    before + user + [':'] + password + ['@'] + host
  }

  /** Something that reads as a password: text, and then anything with at signs. */
  predicate Password(head: string, tail: string) {
    head != "" && Simple(head) && (tail == "" || tail[0] == '@') && OneWord(tail)
  }

  predicate User(user: string) {
    user != "" && ':' !in user && Simple(user)
  }

  predicate Host(host: string) {
    '@' !in host && OneWord(host)
  }

  /** A user and a password are masked, at signs and colons in the password included:
      what is printed is what stands before and after. */
  lemma PasswordMasked(before: string, user: string, head: string, tail: string, host: string)
    requires BeforeToken(before) && NoCredential(IsWhitespace, before, 0)
    requires User(user) && Password(head, tail) && Host(host)
    ensures Redacted(Word(before, user, head + tail, host)) == before + "***@" + host
  {
    var text, start, colon := Word(before, user, head + tail, host), |before|, |before| + |user|;
    var at := colon + 1 + |head|;
    var last := at + |tail|;
    WordPlaced(before, user, head, tail, host, text, colon, at, last);
    CleanBefore(text, before, start);
    TokenMasked(IsWhitespace, text, start, colon, at, last);
  }

  lemma CleanBefore(text: string, before: string, start: nat)
    requires start <= |text| && text[..start] == before && NoCredential(IsWhitespace, before, 0)
    ensures forall k :: 0 <= k < start && text[k] == '@' ==> !HasPassword(IsWhitespace, text, k)
  {
    forall k | 0 <= k < start && text[k] == '@' ensures !HasPassword(IsWhitespace, text, k) {
      PasswordBefore(IsWhitespace, text, start, k);
      assert before[k] == '@';
    }
  }

  lemma WordPlaced(before: string, user: string, head: string, tail: string, host: string, text: string, colon: nat,
                   at: nat, last: nat)
    requires BeforeToken(before) && User(user) && Password(head, tail) && Host(host)
    requires text == Word(before, user, head + tail, host) && colon == |before| + |user|
    requires at == colon + 1 + |head| && last == at + |tail|
    ensures CredentialIn(IsWhitespace, text, |before|, colon, at, last)
    ensures text[..|before|] == before && text[last + 1..] == host
  {
    WordSlices(before + user, head, tail, host, text);
    assert text[..|before|] == text[..colon][..|before|];
    UserPlaced(before, user, text, colon);
    PartPlaced(text, colon + 1, at, head);
    PartPlaced(text, at, last, tail);
    PartPlaced(text, last + 1, |text|, host);
    TailBegins(text, at, last, tail);
  }

  /** Where a word's parts are. */
  lemma WordSlices(start: string, head: string, tail: string, host: string, text: string)
    requires text == start + [':'] + (head + tail) + ['@'] + host
    ensures var colon := |start|;
      var at, last := colon + 1 + |head|, colon + 1 + |head| + |tail|;
      && |text| == last + 1 + |host| && text[colon] == ':' && text[last] == '@' && text[..colon] == start
      && text[colon + 1..at] == head && text[at..last] == tail && text[last + 1..] == host
  {
    var colon := |start|;
    var at, last := colon + 1 + |head|, colon + 1 + |head| + |tail|;
    assert text[colon + 1..last] == head + tail;
    assert text[colon + 1..at] == text[colon + 1..last][..|head|];
    assert text[at..last] == text[colon + 1..last][|head|..];
  }

  lemma TailBegins(text: string, at: nat, last: nat, tail: string)
    requires at <= last < |text| && text[at..last] == tail && text[last] == '@' && (tail == "" || tail[0] == '@')
    ensures text[at] == '@'
  {
    if at < last { assert text[at..last][0] == text[at]; }
  }

  lemma PartPlaced(text: string, from: nat, to: nat, part: string)
    requires from <= to <= |text| && text[from..to] == part
    ensures forall k :: from <= k < to ==> text[k] in part
  {
    forall k | from <= k < to ensures text[k] in part {
      assert text[from..to][k - from] == text[k];
    }
  }

  lemma UserPlaced(before: string, user: string, text: string, colon: nat)
    requires colon == |before| + |user| <= |text| && text[..colon] == before + user
    ensures forall k :: |before| <= k < colon ==> text[k] in user
  {
    assert text[|before|..colon] == user by { assert text[|before|..colon] == text[..colon][|before|..]; }
    PartPlaced(text, |before|, colon, user);
  }

  /** In a text, between white space or quotes: what stands before and after is
      redacted in turn. */
  lemma PasswordMaskedInText(left: string, d: char, before: string, user: string, head: string, tail: string,
                             host: string, e: char, right: string)
    requires IsWhitespace(d) || d == '"' || d == '\''
    requires IsWhitespace(e) || e == '"' || e == '\''
    requires BeforeToken(before) && NoCredential(IsWhitespace, before, 0)
    requires User(user) && Password(head, tail) && Host(host)
    ensures Redacted(left + [d] + (Word(before, user, head + tail, host) + [e] + right))
      == Redacted(left) + [d] + (before + "***@" + host + [e] + Redacted(right))
  {
    var word := Word(before, user, head + tail, host);
    PasswordMasked(before, user, head, tail, host);
    RedactedApart(left, d, word + [e] + right);
    RedactedApart(word, e, right);
  }

  /** A slash begins a new token, so a password with a slash and no colon after it
      is not seen. */
  lemma SlashedPasswordKept(user: string, left: string, right: string, host: string)
    requires '@' !in user && '@' !in left && Simple(right) && ':' !in right && '@' !in host
    ensures var text := user + [':'] + left + ['/'] + right + ['@'] + host; Redacted(text) == text
  {
    var text := user + [':'] + left + ['/'] + right + ['@'] + host;
    var slash, at := |user| + 1 + |left|, |user| + 2 + |left| + |right|;
    assert text[slash] == '/' && text[at] == '@';
    assert forall k :: 0 <= k < |user| ==> text[k] == user[k] && text[k] in user;
    assert forall k :: |user| < k < slash ==> text[k] == left[k - |user| - 1] && text[k] in left;
    assert forall k :: slash < k < at ==> text[k] == right[k - slash - 1] && text[k] in right;
    assert forall k :: at < k < |text| ==> text[k] == host[k - at - 1] && text[k] in host;
    forall k | 0 <= k < |text| && text[k] == '@' ensures !HasPassword(IsWhitespace, text, k) {
      NoColonAfter(IsWhitespace, text, slash, at);
    }
    NothingToRedact(IsWhitespace, text, 0);
    assert text[0..] == text;
  }

  lemma NoColonAfter(white: White, text: string, slash: nat, at: nat)
    requires slash < at < |text| && text[slash] == '/' && forall k :: slash < k < at ==> text[k] != ':'
    ensures !HasPassword(white, text, at)
  {
    var start := TokenStart(white, text, at);
    assert start > slash;
  }

  /** The token has a user and a password: text on both sides of its first colon. */
  predicate HasBoth(token: string, colon: int) {
    0 < colon < |token| - 1 && token[colon] == ':' && ':' !in token[..colon]
  }

  /** With one at sign in a word, the token before it decides: it is masked iff it has a
      user and a password, and what stands before the token is printed. */
  lemma TokenMaskedIff(before: string, token: string, host: string)
    requires '@' !in before && BeforeToken(before) && Simple(token) && Host(host)
    ensures Redacted(before + token + ['@'] + host) == before + token + ['@'] + host <==>
      !exists colon :: HasBoth(token, colon)
  {
    if colon :| HasBoth(token, colon) {
      BothMasked(before, token, colon, host);
      Differs(before, token, colon, host);
    } else {
      TokenKept(before, token, host);
    }
  }

  lemma BothMasked(before: string, token: string, colon: nat, host: string)
    requires '@' !in before && BeforeToken(before) && Simple(token) && Host(host) && HasBoth(token, colon)
    ensures Redacted(before + token + ['@'] + host) == before + "***@" + host
  {
    var user, password := token[..colon], token[colon + 1..];
    Halves(token, colon, user, password);
    PasswordMasked(before, user, password, "", host);
    SameWord(before, token, user, password, host);
  }

  lemma Halves(token: string, colon: nat, user: string, password: string)
    requires Simple(token) && HasBoth(token, colon) && user == token[..colon] && password == token[colon + 1..]
    ensures token == user + [':'] + password && User(user) && Password(password, "")
  {
    assert forall c :: c in user ==> c in token;
    assert forall c :: c in password ==> c in token;
  }

  lemma SameWord(before: string, token: string, user: string, password: string, host: string)
    requires token == user + [':'] + password
    ensures Word(before, user, password + "", host) == before + token + ['@'] + host
  {
    assert password + "" == password;
  }

  lemma Differs(before: string, token: string, colon: nat, host: string)
    requires colon < |token| && token[colon] == ':'
    ensures before + "***@" + host != before + token + ['@'] + host
  {
    var a, b := before + "***@" + host, before + token + ['@'] + host;
    assert b[|before| + colon] == ':';
    assert |token| == 3 ==> a[|before| + colon] == '*';
  }

  lemma TokenKept(before: string, token: string, host: string)
    requires '@' !in before && BeforeToken(before) && Simple(token) && Host(host)
    requires !exists colon :: HasBoth(token, colon)
    ensures Redacted(before + token + ['@'] + host) == before + token + ['@'] + host
  {
    var text, start, at := before + token + ['@'] + host, |before|, |before| + |token|;
    assert text[..start] == before && text[start..at] == token && text[at] == '@' && text[at + 1..] == host;
    PartPlaced(text, 0, start, before);
    PartPlaced(text, start, at, token);
    PartPlaced(text, at + 1, |text|, host);
    forall k | 0 <= k < |text| && text[k] == '@' ensures !HasPassword(IsWhitespace, text, k) {
      assert k == at;
      NoPasswordAt(text, token, start, at);
    }
    NothingToRedact(IsWhitespace, text, 0);
    assert text[0..] == text;
  }

  lemma NoPasswordAt(text: string, token: string, start: nat, at: nat)
    requires start <= at < |text| && text[start..at] == token && Simple(token)
    requires start > 0 ==> StartsToken(IsWhitespace, text[start - 1])
    requires !exists colon :: HasBoth(token, colon)
    ensures !HasPassword(IsWhitespace, text, at)
  {
    PartPlaced(text, start, at, token);
    var found := TokenStart(IsWhitespace, text, at);
    assert found <= start;
    assert start <= found;
    var colon := FirstColon(text, start, at);
    if colon.Some? && colon.value > start && colon.value + 1 < at {
      var k := colon.value - start;
      assert token[k] == text[colon.value];
      assert forall i :: 0 <= i < k ==> token[i] == text[start + i];
      assert HasBoth(token, k);
    }
  }
}
