/** The scrubber of `user:password@` userinfo: one pass over the text, and the
    backward searches it replaces. */
module Redaction {
  import opened Wrappers
  import opened TextSearch

  // ------------------------------------------------------- the reference

  /** What counts as white space; an at sign never does. */
  type White = white: char -> bool | !white('@') witness c => c == ' '

  predicate StartsToken(white: White, c: char) {
    white(c) || c == '/' || c == '"' || c == '\''
  }

  predicate EndsCredential(white: White, c: char) {
    white(c) || c == '"' || c == '\''
  }

  /** The first at sign from `from` on. */
  function NextAt(text: string, from: nat): (r: Option<nat>)
    requires from <= |text|
    ensures r.Some? ==> from <= r.value < |text| && text[r.value] == '@'
    ensures forall k :: from <= k < (if r.Some? then r.value else |text|) ==> text[k] != '@'
    decreases |text| - from
  {
    if from == |text| then None else if text[from] == '@' then Some(from) else NextAt(text, from + 1)
  }

  /** The token before `at` begins after the last delimiter before it. */
  function TokenStart(white: White, text: string, at: nat): (start: nat)
    requires at <= |text|
    ensures start <= at && forall k :: start <= k < at ==> !StartsToken(white, text[k])
    ensures start == 0 || StartsToken(white, text[start - 1])
  {
    if at == 0 || StartsToken(white, text[at - 1]) then at else TokenStart(white, text, at - 1)
  }

  function FirstColon(text: string, from: nat, to: nat): (r: Option<nat>)
    requires from <= to <= |text|
    ensures r.Some? ==> from <= r.value < to && text[r.value] == ':'
    ensures forall k :: from <= k < (if r.Some? then r.value else to) ==> text[k] != ':'
  {
    if from == to then None
    else
      match FirstColon(text, from, to - 1)
      case Some(colon) => Some(colon)
      case None => if text[to - 1] == ':' then Some(to - 1) else None
  }

  function CredentialEnd(white: White, text: string, at: nat): (end: nat)
    requires at <= |text|
    ensures at <= end <= |text| && (end < |text| ==> EndsCredential(white, text[end]))
    ensures forall k :: at <= k < end ==> !EndsCredential(white, text[k])
    decreases |text| - at
  {
    if at == |text| || EndsCredential(white, text[at]) then at else CredentialEnd(white, text, at + 1)
  }

  /** The last at sign before `end`, from `at` on. */
  function LastAt(text: string, at: nat, end: nat): (last: nat)
    requires at < end <= |text| && text[at] == '@'
    ensures at <= last < end && text[last] == '@' && forall k :: last < k < end ==> text[k] != '@'
  {
    if text[end - 1] == '@' then end - 1 else LastAt(text, at, end - 1)
  }

  /** The token before the at sign is a user and a password. */
  predicate HasPassword(white: White, text: string, at: nat)
    requires at < |text|
  {
    var start := TokenStart(white, text, at);
    PasswordAfter(start, FirstColon(text, start, at), at)
  }

  predicate PasswordAfter(start: nat, colon: Option<nat>, at: nat) {
    colon.Some? && colon.value > start && colon.value + 1 < at
  }

  /** What stands for the credential before the at sign at `at`. */
  function Masked(white: White, text: string, search: nat, at: nat): string
    requires search <= at < |text| && text[at] == '@'
  {
    var start, end := TokenStart(white, text, at), CredentialEnd(white, text, at);
    (if search < start then text[search..start] else "") + "***@" + text[LastAt(text, at, end) + 1..end]
  }

  /** What is written at an at sign, and where the search goes on. */
  function PieceAt(white: White, text: string, search: nat, at: nat): string
    requires search <= at < |text| && text[at] == '@'
  {
    if HasPassword(white, text, at) then Masked(white, text, search, at) else text[search..at + 1]
  }

  function ResumeAt(white: White, text: string, at: nat): (next: nat)
    requires at < |text| && text[at] == '@'
    ensures at < next <= |text|
  {
    if HasPassword(white, text, at) then CredentialEnd(white, text, at) else at + 1
  }

  /** The text from `search` on, its credentials masked. */
  function RedactedFrom(white: White, text: string, search: nat): string
    requires search <= |text|
    decreases |text| - search
  {
    match NextAt(text, search)
    case None => text[search..]
    case Some(at) => PieceAt(white, text, search, at) + RedactedFrom(white, text, ResumeAt(white, text, at))
  }

  function Redacted(text: string): string {
    RedactedFrom(IsWhitespace, text, 0)
  }

  // ------------------------------------------------------- the linear scan

  /** What the scan remembers of the text before `at` is what the backward
      searches would find. */
  predicate Remembers(white: White, text: string, at: nat, start: nat, colon: Option<nat>) {
    at <= |text| && start == TokenStart(white, text, at) && colon == FirstColon(text, start, at)
  }

  /** The scan may go on from here. */
  predicate Ready(white: White, text: string, scanned: nat, start: nat, colon: Option<nat>) {
    scanned <= |text|
    && (Remembers(white, text, scanned, start, colon) || scanned == |text| || StartsToken(white, text[scanned]))
  }

  lemma RemembersNext(white: White, text: string, k: nat, start: nat, colon: Option<nat>)
    requires k < |text|
    ensures StartsToken(white, text[k]) ==> Remembers(white, text, k + 1, k + 1, None)
    ensures !StartsToken(white, text[k]) && Remembers(white, text, k, start, colon) ==>
      Remembers(white, text, k + 1, start, if text[k] == ':' && colon.None? then Some(k) else colon)
  {
  }

  /** The scan advances to the at sign, one character at a time. */
  method ScanTo(white: White, text: string, scanned: nat, at: nat, start: nat, colon: Option<nat>)
      returns (newStart: nat, newColon: Option<nat>)
    requires scanned <= at < |text| && text[at] == '@' && Ready(white, text, scanned, start, colon)
    ensures Remembers(white, text, at, newStart, newColon)
  {
    newStart, newColon := start, colon;
    for k := scanned to at
      invariant Remembers(white, text, k, newStart, newColon) || (k == scanned && StartsToken(white, text[k]))
    {
      RemembersNext(white, text, k, newStart, newColon);
      if StartsToken(white, text[k]) {
        newStart := k + 1;
        newColon := None;
      } else if text[k] == ':' && newColon.None? {
        newColon := Some(k);
      }
    }
  }

  method Mask(white: White, text: string, search: nat, start: nat, at: nat, end: nat) returns (piece: string)
    requires search <= at < |text| && text[at] == '@'
    requires start == TokenStart(white, text, at) && end == CredentialEnd(white, text, at)
    ensures piece == Masked(white, text, search, at)
  {
    piece := "";
    if search < start {
      piece := text[search..start];
    }
    piece := piece + "***@" + text[LastAt(text, at, end) + 1..end];
  }

  /** The output up to `search`, and then the rest, is the reference's. */
  ghost predicate WrittenTo(white: White, text: string, result: string, search: nat) {
    search <= |text| && result + RedactedFrom(white, text, search) == RedactedFrom(white, text, 0)
  }

  lemma WriteOn(white: White, text: string, result: string, search: nat, at: nat)
    requires WrittenTo(white, text, result, search) && NextAt(text, search) == Some(at)
    ensures WrittenTo(white, text, result + PieceAt(white, text, search, at), ResumeAt(white, text, at))
  {
    Regroup(result, PieceAt(white, text, search, at), RedactedFrom(white, text, ResumeAt(white, text, at)));
  }

  lemma Regroup(a: string, b: string, c: string)
    ensures a + b + c == a + (b + c)
  {
  }

  lemma ReadyAfterAt(white: White, text: string, at: nat, start: nat, colon: Option<nat>)
    requires at < |text| && text[at] == '@' && Remembers(white, text, at, start, colon)
    ensures Ready(white, text, at + 1, start, colon)
  {
    RemembersNext(white, text, at, start, colon);
  }

  lemma ReadyAfterCredential(white: White, text: string, at: nat)
    requires at < |text|
    ensures var end := CredentialEnd(white, text, at); Ready(white, text, end, end, None)
  {
  }

  lemma Remembered(white: White, text: string, at: nat, start: nat, colon: Option<nat>)
    requires at < |text| && Remembers(white, text, at, start, colon)
    ensures PasswordAfter(start, colon, at) <==> HasPassword(white, text, at)
  {
  }

  /** One at sign: what is written for it, and where the scan goes on. */
  method NextPiece(white: White, text: string, search: nat, start: nat, colon: Option<nat>, at: nat)
      returns (piece: string, next: nat, newStart: nat, newColon: Option<nat>)
    requires search <= at < |text| && text[at] == '@' && Ready(white, text, search, start, colon)
    ensures piece == PieceAt(white, text, search, at) && next == ResumeAt(white, text, at)
    ensures Ready(white, text, next, newStart, newColon)
  {
    newStart, newColon := ScanTo(white, text, search, at, start, colon);
    Remembered(white, text, at, newStart, newColon);
    if PasswordAfter(newStart, newColon, at) {
      next := CredentialEnd(white, text, at);
      piece := Mask(white, text, search, newStart, at, next);
      ReadyAfterCredential(white, text, at);
      newStart, newColon := next, None;
    } else {
      next := at + 1;
      piece := text[search..next];
      ReadyAfterAt(white, text, at, newStart, newColon);
    }
  }

  /** The linear pass, which looks at no character before the last at sign again,
      changes no output of the reference. */
  method RedactSchemeless(text: string) returns (result: string)
    ensures result == Redacted(text)
  {
    result := "";
    var search: nat, tokenStart: nat, colon: Option<nat> := 0, 0, None;
    var found := NextAt(text, search);
    while found.Some?
      invariant WrittenTo(IsWhitespace, text, result, search) && found == NextAt(text, search)
      invariant Ready(IsWhitespace, text, search, tokenStart, colon)
      decreases |text| - search
    {
      var piece, next, newStart, newColon := NextPiece(IsWhitespace, text, search, tokenStart, colon, found.value);
      WriteOn(IsWhitespace, text, result, search, found.value);
      result, search, tokenStart, colon := result + piece, next, newStart, newColon;
      found := NextAt(text, search);
    }
    result := result + text[search..];
  }

  // ----------------------------------------------------------- properties

  /** No at sign from `search` on follows a user and a password. */
  predicate NoCredential(white: White, text: string, search: nat) {
    forall at :: search <= at < |text| && text[at] == '@' ==> !HasPassword(white, text, at)
  }

  /** Such a text is left alone. */
  lemma {:induction false} NothingToRedact(white: White, text: string, search: nat)
    requires search <= |text| && NoCredential(white, text, search)
    ensures RedactedFrom(white, text, search) == text[search..]
    decreases |text| - search
  {
    var found := NextAt(text, search);
    if found.Some? {
      var rest := ResumeAt(white, text, found.value);
      assert !HasPassword(white, text, found.value) && NoCredential(white, text, rest);
      NothingToRedact(white, text, rest);
      Rejoined(text, search, rest);
    }
  }

  lemma Rejoined(text: string, from: nat, to: nat)
    requires from <= to <= |text|
    ensures text[from..to] + text[to..] == text[from..]
  {
  }

  /** Without an at sign, or without a colon, there is nothing to redact. */
  lemma PlainKept(text: string)
    requires '@' !in text || ':' !in text
    ensures Redacted(text) == text
  {
    forall at | 0 <= at < |text| && text[at] == '@' ensures !HasPassword(IsWhitespace, text, at) {
    }
    NothingToRedact(IsWhitespace, text, 0);
    assert text[0..] == text;
  }

  /** Every character is the text's or the mask's. */
  predicate FromText(text: string, piece: string) {
    forall c :: c in piece ==> c in text || c == '*' || c == '@'
  }

  lemma PartFromText(text: string, from: nat, to: nat)
    requires from <= to <= |text|
    ensures FromText(text, text[from..to])
  {
  }

  lemma BothFromText(text: string, a: string, b: string)
    requires FromText(text, a) && FromText(text, b)
    ensures FromText(text, a + b)
  {
  }

  lemma MaskedFromText(white: White, text: string, search: nat, at: nat)
    requires search <= at < |text| && text[at] == '@'
    ensures FromText(text, Masked(white, text, search, at))
  {
    var start, end := TokenStart(white, text, at), CredentialEnd(white, text, at);
    var first := if search < start then text[search..start] else "";
    var host := text[LastAt(text, at, end) + 1..end];
    PartFromText(text, LastAt(text, at, end) + 1, end);
    if search < start { PartFromText(text, search, start); }
    assert FromText(text, "***@");
    BothFromText(text, first, "***@");
    BothFromText(text, first + "***@", host);
  }

  /** Redacting adds nothing but the mask. */
  lemma {:induction false} OnlyMaskAdded(white: White, text: string, search: nat)
    requires search <= |text|
    ensures FromText(text, RedactedFrom(white, text, search))
    decreases |text| - search
  {
    match NextAt(text, search)
    case None => PartFromText(text, search, |text|);
    case Some(at) =>
      PieceFromText(white, text, search, at);
      OnlyMaskAdded(white, text, ResumeAt(white, text, at));
      BothFromText(text, PieceAt(white, text, search, at), RedactedFrom(white, text, ResumeAt(white, text, at)));
  }

  lemma PieceFromText(white: White, text: string, search: nat, at: nat)
    requires search <= at < |text| && text[at] == '@'
    ensures FromText(text, PieceAt(white, text, search, at))
  {
    if HasPassword(white, text, at) { MaskedFromText(white, text, search, at); }
      else { PartFromText(text, search, at + 1); }
  }

  /** Text with neither token delimiters nor an at sign. */
  predicate Simple(s: string) {
    forall c :: c in s ==> !IsWhitespace(c) && c != '/' && c != '"' && c != '\'' && c != '@'
  }

  /** A user and a password before a host are masked, whatever they are. */
  lemma CredentialMasked(user: string, password: string, host: string)
    requires user != "" && ':' !in user && Simple(user) && password != "" && Simple(password) && Simple(host)
    ensures Redacted(user + [':'] + password + ['@'] + host) == "***@" + host
  {
    var text, at := user + [':'] + password + ['@'] + host, |user| + 1 + |password|;
    forall k | 0 <= k < |user| ensures text[k] == user[k] && text[k] in user {
    }
    forall k | |user| < k < at ensures text[k] == password[k - |user| - 1] && text[k] in password {
    }
    forall k | at < k < |text| ensures text[k] == host[k - at - 1] && text[k] in host {
    }
    assert text[at + 1..] == host;
    LoneCredential(IsWhitespace, text, |user|, at);
  }

  /** A text that is one token with one colon before its one at sign. */
  lemma LoneCredential(white: White, text: string, colon: nat, at: nat)
    requires 0 < colon && colon + 1 < at < |text| && text[colon] == ':' && text[at] == '@'
    requires forall k :: 0 <= k < colon ==> text[k] != ':'
    requires forall k :: 0 <= k < |text| && k != at ==> !StartsToken(white, text[k]) && text[k] != '@'
    ensures RedactedFrom(white, text, 0) == "***@" + text[at + 1..]
  {
    LoneAt(text, at);
    LoneColon(text, colon, at);
    LoneToken(white, text, at);
    LoneEnd(white, text, at);
    MaskedWhole(white, text, colon, at);
  }

  lemma LoneAt(text: string, at: nat)
    requires at < |text| && text[at] == '@' && forall k :: 0 <= k < |text| && k != at ==> text[k] != '@'
    ensures NextAt(text, 0) == Some(at) && LastAt(text, at, |text|) == at
  {
  }

  lemma LoneColon(text: string, colon: nat, at: nat)
    requires colon < at <= |text| && text[colon] == ':' && forall k :: 0 <= k < colon ==> text[k] != ':'
    ensures FirstColon(text, 0, at) == Some(colon)
  {
  }

  lemma LoneToken(white: White, text: string, at: nat)
    requires at < |text| && forall k :: 0 <= k < at ==> !StartsToken(white, text[k])
    ensures TokenStart(white, text, at) == 0
  {
  }

  lemma LoneEnd(white: White, text: string, at: nat)
    requires at < |text| && text[at] == '@' && forall k :: at < k < |text| ==> !StartsToken(white, text[k])
    ensures CredentialEnd(white, text, at) == |text|
  {
    assert !EndsCredential(white, text[at]);
  }

  lemma MaskedWhole(white: White, text: string, colon: nat, at: nat)
    requires 0 < colon && colon + 1 < at < |text| && text[at] == '@' && NextAt(text, 0) == Some(at)
    requires TokenStart(white, text, at) == 0 && FirstColon(text, 0, at) == Some(colon)
    requires CredentialEnd(white, text, at) == |text| && LastAt(text, at, |text|) == at
    ensures RedactedFrom(white, text, 0) == "***@" + text[at + 1..]
  {
    assert Masked(white, text, 0, at) == "***@" + text[at + 1..];
    assert RedactedFrom(white, text, |text|) == "";
  }
}
