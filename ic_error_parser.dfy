/**
 * `parseICError` (`src/frontend/src/lib/icErrorParser.ts`): turns whatever a call to the
 * Internet Computer threw into a title, a user-facing message, technical details read out
 * of the error text, and six category flags.
 */
module ICErrorParser {
  import opened Wrappers
  import opened Text

  // ---------------------------------------------------------------------------------
  // Thrown values
  // ---------------------------------------------------------------------------------

  /**
   * The JavaScript values a caller can throw, as far as `parseICError` distinguishes them.
   * `ErrorInstance` is an `Error` (or subclass) object with its own `name` and `message`;
   * `ObjectWithMessage` is any other object that has a `message` property; `PlainObject` is
   * an ordinary object without one that keeps the default `toString`. Numbers are the
   * integers of magnitude at most 2^53, which a JavaScript number holds exactly and `String`
   * prints in plain decimal.
   */
  datatype JsValue =
    | Undefined
    | Null
    | Bool(b: bool)
    | Num(n: int)
    | Str(s: string)
    | ErrorInstance(name: string, message: string)
    | ObjectWithMessage(messageValue: JsValue)
    | PlainObject

  /** `!value`: the falsy values. */
  predicate IsFalsy(v: JsValue) {
    v.Undefined? || v.Null? || v == Bool(false) || v == Num(0) || v == Str("")
  }

  /**
   * `String(value)`. An `Error` prints as `Error.prototype.toString` does: the name and the
   * message joined by ": ", either one alone when the other is empty. Other objects print
   * as "[object Object]".
   */
  function AsString(v: JsValue): (r: string)
    ensures v.Str? ==> r == v.s
    ensures v.Bool? ==> (r == "true" <==> v.b) && (r == "false" <==> !v.b)
    ensures v.Undefined? ==> r == "undefined"
    ensures v.Null? ==> r == "null"
    ensures v.Num? ==> r == IntToString(v.n)
    ensures v.Num? ==> |r| >= 1 && ((r[0] == '-' && AllDigits(r[1..])) || AllDigits(r)) && ParseInt(r) == v.n
    ensures v.ErrorInstance? && v.name == "" ==> r == v.message
    ensures v.ErrorInstance? && v.message == "" ==> r == v.name
    ensures v.ErrorInstance? && v.name != "" && v.message != "" ==> r == v.name + ": " + v.message
    ensures v.ObjectWithMessage? || v.PlainObject? ==> r == "[object Object]"
    ensures IsFalsy(v) ==> r in {"undefined", "null", "false", "0", ""}
  {
    match v
    case Undefined => "undefined"
    case Null => "null"
    case Bool(b) => if b then "true" else "false"
    case Num(n) => IntToStringRoundTrip(n); IntToString(n)
    case Str(s) => s
    case ErrorInstance(name, message) =>
      if name == "" then message else if message == "" then name else name + ": " + message
    case ObjectWithMessage(_) => "[object Object]"
    case PlainObject => "[object Object]"
  }

  /**
   * The error text the parser works on (lines 73-85 of the source): an `Error`'s message,
   * the stringified `message` property of another object, and otherwise the value itself
   * as a string.
   */
  function ErrorMessage(v: JsValue): (m: string)
    ensures v.ErrorInstance? ==> m == v.message
    ensures v.ObjectWithMessage? ==> m == AsString(v.messageValue)
    ensures !v.ErrorInstance? && !v.ObjectWithMessage? ==> m == AsString(v)
  {
    match v
    case ErrorInstance(_, message) => message
    case Str(s) => s
    case ObjectWithMessage(messageValue) => AsString(messageValue)
    case _ => AsString(v)
  }

  // ---------------------------------------------------------------------------------
  // The result record
  // ---------------------------------------------------------------------------------

  datatype Details = Details(
    requestId: Option<string>,
    rejectCode: Option<nat>,
    errorCode: Option<string>,
    rawMessage: string)

  datatype ParsedICError = ParsedICError(
    title: string,
    message: string,
    details: Option<Details>,
    isBackendUnavailable: bool,
    isCanisterStopped: bool,
    isOutOfCycles: bool,
    isApiMismatch: bool,
    isAuthError: bool,
    isInvalidCanisterId: bool)

  const DefaultTitle: string := "Operation Failed"
  const DefaultMessage: string := "An unexpected error occurred. Please try again."

  const InvalidIdTitle: string := "Invalid Canister ID"
  const InvalidIdMessage: string := "The backend canister ID is invalid or not configured. Please open Connection Settings to enter a valid deployed canister ID and verify the IC host is correct (usually https://ic0.app)."
  const OutOfCyclesTitle: string := "Backend Canister Out of Cycles"
  const OutOfCyclesMessage: string := "The backend canister has run out of cycles and is stopped. To fix this: (1) Redeploy or restart the backend canister, (2) Verify it is Running in dfx canister status, (3) Top up cycles if needed, and (4) Ensure frontend/public/ic-config.json has the correct backendCanisterId."
  const StoppedTitle: string := "Backend Canister Stopped"
  const StoppedMessage: string := "The backend canister is stopped or unreachable. To fix this: (1) Redeploy or restart the backend canister using dfx deploy, (2) Verify it is Running with dfx canister status, (3) Ensure frontend/public/ic-config.json has the correct backendCanisterId, and (4) Rebuild/redeploy the frontend if needed."
  const UnreachableTitle: string := "Backend Canister Unreachable"
  const UnreachableMessage: string := "Unable to connect to the backend canister. Check your Connection Settings to verify the canister ID and IC host are correct, or reset to defaults. If the canister is stopped, redeploy it and ensure it is Running."
  const ApiMismatchTitle: string := "API Version Mismatch"
  const ApiMismatchMessage: string := "The frontend and backend versions are incompatible. Please ensure both are up to date and re-sync the bindings."
  const AuthTitle: string := "Authentication Required"
  const AuthMessage: string := "You need to be signed in to perform this action. Please sign in and try again."

  /** The record `parseICError` starts from: default text, no flag, no details. */
  const Initial: ParsedICError :=
    ParsedICError(DefaultTitle, DefaultMessage, None, false, false, false, false, false, false)

  /** The four one-line helpers of the source. */
  predicate IsBackendUnavailable(p: ParsedICError) {
    p.isBackendUnavailable || p.isCanisterStopped || p.isOutOfCycles
  }

  predicate IsApiMismatch(p: ParsedICError) {
    p.isApiMismatch
  }

  predicate IsAuthError(p: ParsedICError) {
    p.isAuthError
  }

  predicate IsInvalidCanisterId(p: ParsedICError) {
    p.isInvalidCanisterId
  }

  // ---------------------------------------------------------------------------------
  // Technical details: the six regular expressions of lines 91-109
  // ---------------------------------------------------------------------------------

  /** `\s` of JavaScript regular expressions. */
  predicate IsJsWhitespace(c: char) {
    c == ' ' || c == '\t' || c == '\n' || c == '\U{000B}' || c == '\U{000C}' || c == '\r'
    || c == '\U{00A0}' || c == '\U{1680}' || ('\U{2000}' <= c <= '\U{200A}')
    || c == '\U{2028}' || c == '\U{2029}' || c == '\U{202F}' || c == '\U{205F}'
    || c == '\U{3000}' || c == '\U{FEFF}'
  }

  /** The character classes the patterns use, read with the `i` flag. */
  datatype CharClass =
    | Whitespace          // \s
    | HexOrDash           // [a-f0-9-]
    | Decimal             // \d
    | LetterOrUnderscore  // [A-Z_]
    | QuoteSpaceOrColon   // ["\s:]

  predicate InClass(c: char, cls: CharClass) {
    match cls
    case Whitespace => IsJsWhitespace(c)
    case HexOrDash => IsDigit(c) || ('a' <= LowerChar(c) <= 'f') || c == '-'
    case Decimal => IsDigit(c)
    case LetterOrUnderscore => IsAsciiUpper(c) || IsAsciiLower(c) || c == '_'
    case QuoteSpaceOrColon => c == '"' || IsJsWhitespace(c) || c == ':'
  }

  /**
   * No separator class shares a character with a capture class, so once the literal
   * prefix has matched, the greedy runs below are the only way the rest can match.
   */
  lemma SeparatorsAndCapturesDisjoint(c: char)
    ensures !(InClass(c, Whitespace) && InClass(c, HexOrDash))
    ensures !(InClass(c, Whitespace) && InClass(c, Decimal))
    ensures !(InClass(c, Whitespace) && InClass(c, LetterOrUnderscore))
    ensures !(InClass(c, QuoteSpaceOrColon) && InClass(c, HexOrDash))
    ensures !(InClass(c, QuoteSpaceOrColon) && InClass(c, Decimal))
    ensures !(InClass(c, QuoteSpaceOrColon) && InClass(c, LetterOrUnderscore))
  {
  }

  /**
   * A pattern `head[_-]?tail<sep>{sepMin,}(<capture>+)` read with the `i` flag: the literal
   * `head`, then, when `joiner` is set, an optional `_` or `-`, then the literal `tail`, at
   * least `sepMin` separators, and the captured run.
   */
  datatype Pattern = Pattern(head: string, joiner: bool, tail: string, sep: CharClass, sepMin: nat, capture: CharClass)

  const RequestIdPrimary := Pattern("Request ID:", false, "", Whitespace, 0, HexOrDash)
  const RequestIdFallback := Pattern("request", true, "id", QuoteSpaceOrColon, 1, HexOrDash)
  const RejectCodePrimary := Pattern("Reject code:", false, "", Whitespace, 0, Decimal)
  const RejectCodeFallback := Pattern("reject", true, "code", QuoteSpaceOrColon, 1, Decimal)
  const ErrorCodePrimary := Pattern("Error code:", false, "", Whitespace, 0, LetterOrUnderscore)
  const ErrorCodeFallback := Pattern("error", true, "code", QuoteSpaceOrColon, 1, LetterOrUnderscore)

  /** The literal `w` occurs at position `k`, ignoring ASCII case. */
  predicate WordAt(s: string, k: nat, w: string) {
    k + |w| <= |s| && forall t :: 0 <= t < |w| ==> LowerChar(s[k + t]) == LowerChar(w[t])
  }

  /** The optional `_` or `-` of a pattern with a joiner is present at `h`, and the tail follows it. */
  predicate JoinerAt(s: string, h: nat, p: Pattern) {
    p.joiner && h < |s| && (s[h] == '_' || s[h] == '-') && WordAt(s, h + 1, p.tail)
  }

  /** The end of the longest run of `cls` characters starting at `i`. */
  function RunEnd(s: string, i: nat, cls: CharClass): (j: nat)
    requires i <= |s|
    ensures i <= j <= |s|
    decreases |s| - i
  {
    if i < |s| && InClass(s[i], cls) then RunEnd(s, i + 1, cls) else i
  }

  /** After the literal: the separators, then the captured group (non-empty, greedy). */
  function MatchTail(s: string, i: nat, p: Pattern): (m: Option<string>)
    requires i <= |s|
    ensures m.Some? ==> |m.value| >= 1 && forall k :: 0 <= k < |m.value| ==> InClass(m.value[k], p.capture)
  {
    var j := RunEnd(s, i, p.sep);
    if j - i < p.sepMin then None
    else
      var k := RunEnd(s, j, p.capture);
      RunEndIsRun(s, j, p.capture);
      if k == j then None else Some(s[j..k])
  }

  /**
   * One attempt at position `k`. The regular-expression engine tries an optional joiner
   * present first; when it is present the plain reading cannot apply, since no pattern's
   * `tail` starts with `_` or `-` (`JoinerExcludesPlainTail`), so there is nothing to
   * backtrack to.
   */
  function MatchFrom(s: string, k: nat, p: Pattern): (m: Option<string>)
    ensures m.Some? ==> |m.value| >= 1 && forall t :: 0 <= t < |m.value| ==> InClass(m.value[t], p.capture)
  {
    if !WordAt(s, k, p.head) then None
    else
      var h := k + |p.head|;
      if JoinerAt(s, h, p) then MatchTail(s, h + 1 + |p.tail|, p)
      else if WordAt(s, h, p.tail) then MatchTail(s, h + |p.tail|, p)
      else None
  }

  /** `String.prototype.match` without the `g` flag: the capture of the first attempt that succeeds. */
  function Search(s: string, i: nat, p: Pattern): (m: Option<string>)
    requires i <= |s|
    ensures m.Some? ==> |m.value| >= 1 && forall k :: 0 <= k < |m.value| ==> InClass(m.value[k], p.capture)
    decreases |s| - i
  {
    var here := MatchFrom(s, i, p);
    if here.Some? then here
    else if i == |s| then None
    else Search(s, i + 1, p)
  }

  /** `s.match(primary) || s.match(fallback)`, keeping group 1. */
  function MatchEither(s: string, primary: Pattern, fallback: Pattern): (m: Option<string>)
    requires primary.capture == fallback.capture
    ensures m.Some? ==> |m.value| >= 1 && forall k :: 0 <= k < |m.value| ==> InClass(m.value[k], primary.capture)
  {
    var first := Search(s, 0, primary);
    if first.Some? then first else Search(s, 0, fallback)
  }

  /** The details record of lines 88-112: each field is what its two patterns capture. */
  function ExtractDetails(message: string): (d: Details)
    ensures d.rawMessage == message
    ensures d.requestId == MatchEither(message, RequestIdPrimary, RequestIdFallback)
    ensures d.errorCode == MatchEither(message, ErrorCodePrimary, ErrorCodeFallback)
    ensures d.rejectCode.Some? <==> MatchEither(message, RejectCodePrimary, RejectCodeFallback).Some?
    ensures forall digits :: MatchEither(message, RejectCodePrimary, RejectCodeFallback) == Some(digits) ==>
      AllDigits(digits) && d.rejectCode == Some(ParseNat(digits))
  {
    var requestId := MatchEither(message, RequestIdPrimary, RequestIdFallback);
    var rejectDigits := MatchEither(message, RejectCodePrimary, RejectCodeFallback);
    var rejectCode := if rejectDigits.Some? then Some(ParseNat(rejectDigits.value)) else None;
    var errorCode := MatchEither(message, ErrorCodePrimary, ErrorCodeFallback);
    Details(requestId, rejectCode, errorCode, message)
  }

  // ---------------------------------------------------------------------------------
  // What the patterns mean, stated without the search
  // ---------------------------------------------------------------------------------

  /** The literal part of `p` occupies `s[k..j]`, with or without the optional joiner. */
  predicate PrefixEnd(s: string, k: nat, p: Pattern, j: nat) {
    && WordAt(s, k, p.head)
    && var h := k + |p.head|;
      || (j == h + |p.tail| && WordAt(s, h, p.tail))
      || (JoinerAt(s, h, p) && j == h + 1 + |p.tail|)
  }

  /** `s[a..b]` consists of `cls` characters and cannot be extended to the right. */
  predicate IsRun(s: string, a: nat, b: nat, cls: CharClass) {
    a <= b <= |s| && (forall t :: a <= t < b ==> InClass(s[t], cls)) && (b < |s| ==> !InClass(s[b], cls))
  }

  /**
   * From `j` on: at least `sepMin` separators up to `e`, then `cap`, the non-empty run of
   * capture characters at `e`. Both quantifiers are greedy and no separator is a capture
   * character (`SeparatorsAndCapturesDisjoint`), so in a match both runs are maximal.
   */
  ghost predicate TailMatch(s: string, j: nat, p: Pattern, cap: string) {
    exists e: nat ::
      && IsRun(s, j, e, p.sep) && e - j >= p.sepMin
      && |cap| >= 1 && IsRun(s, e, e + |cap|, p.capture) && s[e..e + |cap|] == cap
  }

  /** `p` matches at `k` and captures `cap`: the literal part ends at some `j` and the rest matches there. */
  ghost predicate MatchAt(s: string, k: nat, p: Pattern, cap: string) {
    exists j: nat :: PrefixEnd(s, k, p, j) && TailMatch(s, j, p, cap)
  }

  ghost predicate MatchesAt(s: string, k: nat, p: Pattern) {
    exists cap :: MatchAt(s, k, p, cap)
  }

  ghost predicate MatchesSomewhere(s: string, p: Pattern) {
    exists k: nat :: k <= |s| && MatchesAt(s, k, p)
  }

  /** `cap` is the capture of the leftmost position from `i` on where `p` matches. */
  ghost predicate LeftmostMatch(s: string, i: nat, p: Pattern, cap: string) {
    exists k: nat :: i <= k <= |s| && MatchAt(s, k, p, cap) && forall q :: i <= q < k ==> !MatchesAt(s, q, p)
  }

  /** What `primary || fallback` finds: the primary's leftmost match, else the fallback's. */
  ghost predicate Found(s: string, primary: Pattern, fallback: Pattern, cap: string) {
    if MatchesSomewhere(s, primary) then LeftmostMatch(s, 0, primary, cap) else LeftmostMatch(s, 0, fallback, cap)
  }

  /** With a joiner, the first character of `tail` is neither `_` nor `-`, so the two readings never both apply. */
  predicate WellFormed(p: Pattern) {
    p.joiner ==> |p.tail| >= 1 && LowerChar(p.tail[0]) != '_' && LowerChar(p.tail[0]) != '-'
  }

  // ---------------------------------------------------------------------------------
  // Classification (lines 117-205)
  // ---------------------------------------------------------------------------------

  datatype Category =
    | InvalidCanisterId | OutOfCycles | CanisterStopped | Unreachable | ApiMismatch | AuthFailure
    | Unclassified

  predicate InvalidIdGuard(l: string) {
    Contains(l, "invalid canister id") || Contains(l, "invalid canister-id")
    || Contains(l, "malformed principal") || Contains(l, "invalid principal")
    || Contains(l, "could not parse principal") || Contains(l, "text not valid")
    || (Contains(l, "principal") && Contains(l, "invalid"))
  }

  predicate OutOfCyclesGuard(l: string) {
    Contains(l, "out of cycles") || Contains(l, "insufficient cycles")
    || Contains(l, "canister has run out of cycles")
    || (Contains(l, "cycles") && (Contains(l, "insufficient") || Contains(l, "out of")))
  }

  predicate StoppedGuard(l: string) {
    (Contains(l, "canister") && Contains(l, "stopped"))
    || (Contains(l, "canister") && Contains(l, "stopping"))
    || Contains(l, "canister is not running")
  }

  predicate UnreachableGuard(l: string) {
    (Contains(l, "fetch") && Contains(l, "failed"))
    || (Contains(l, "network") && Contains(l, "error"))
    || Contains(l, "could not reach")
    || (Contains(l, "connection") && Contains(l, "refused"))
    || Contains(l, "timeout") || Contains(l, "unreachable")
    || Contains(l, "not available") || Contains(l, "service unavailable")
  }

  predicate ApiMismatchGuard(l: string) {
    Contains(l, "method not found") || Contains(l, "function not found")
    || (Contains(l, "candid") && Contains(l, "mismatch"))
    || (Contains(l, "interface") && Contains(l, "mismatch"))
  }

  predicate AuthGuard(l: string) {
    Contains(l, "unauthorized")
    || (Contains(l, "authentication") && Contains(l, "failed"))
    || Contains(l, "not authenticated") || Contains(l, "permission denied")
  }

  /** The checks in source order; the first that holds decides. */
  function Classify(l: string): Category {
    if InvalidIdGuard(l) then InvalidCanisterId
    else if OutOfCyclesGuard(l) then OutOfCycles
    else if StoppedGuard(l) then CanisterStopped
    else if UnreachableGuard(l) then Unreachable
    else if ApiMismatchGuard(l) then ApiMismatch
    else if AuthGuard(l) then AuthFailure
    else Unclassified
  }

  /** The record a category produces, with the given details. */
  function Verdict(c: Category, details: Option<Details>): (p: ParsedICError)
    ensures p.details == details
    ensures p.isOutOfCycles ==> p.isCanisterStopped
    ensures FlagCount(p) <= (if p.isOutOfCycles then 2 else 1)
    ensures FlagCount(p) == 0 <==> c == Unclassified
    ensures FlagCount(p) == 0 ==> p.title == DefaultTitle && p.message == DefaultMessage
    // Which flags each category raises, and the texts it shows.
    ensures p.isInvalidCanisterId <==> c == InvalidCanisterId
    ensures p.isOutOfCycles <==> c == OutOfCycles
    ensures p.isCanisterStopped <==> c == OutOfCycles || c == CanisterStopped
    ensures p.isBackendUnavailable <==> c == Unreachable
    ensures p.isApiMismatch <==> c == ApiMismatch
    ensures p.isAuthError <==> c == AuthFailure
    ensures c == InvalidCanisterId ==> p.title == InvalidIdTitle && p.message == InvalidIdMessage
    ensures c == OutOfCycles ==> p.title == OutOfCyclesTitle && p.message == OutOfCyclesMessage
    ensures c == CanisterStopped ==> p.title == StoppedTitle && p.message == StoppedMessage
    ensures c == Unreachable ==> p.title == UnreachableTitle && p.message == UnreachableMessage
    ensures c == ApiMismatch ==> p.title == ApiMismatchTitle && p.message == ApiMismatchMessage
    ensures c == AuthFailure ==> p.title == AuthTitle && p.message == AuthMessage
  {
    match c
    case InvalidCanisterId =>
      Initial.(title := InvalidIdTitle, message := InvalidIdMessage, details := details, isInvalidCanisterId := true)
    case OutOfCycles =>
      Initial.(title := OutOfCyclesTitle, message := OutOfCyclesMessage, details := details,
               isOutOfCycles := true, isCanisterStopped := true)
    case CanisterStopped =>
      Initial.(title := StoppedTitle, message := StoppedMessage, details := details, isCanisterStopped := true)
    case Unreachable =>
      Initial.(title := UnreachableTitle, message := UnreachableMessage, details := details, isBackendUnavailable := true)
    case ApiMismatch =>
      Initial.(title := ApiMismatchTitle, message := ApiMismatchMessage, details := details, isApiMismatch := true)
    case AuthFailure =>
      Initial.(title := AuthTitle, message := AuthMessage, details := details, isAuthError := true)
    case Unclassified =>
      Initial.(details := details)
  }

  /** The number of flags set. */
  function FlagCount(p: ParsedICError): nat {
    (if p.isBackendUnavailable then 1 else 0) + (if p.isCanisterStopped then 1 else 0)
    + (if p.isOutOfCycles then 1 else 0) + (if p.isApiMismatch then 1 else 0)
    + (if p.isAuthError then 1 else 0) + (if p.isInvalidCanisterId then 1 else 0)
  }

  /** The category an input falls into: falsy inputs are left unclassified. */
  function CategoryOf(e: JsValue): Category {
    if IsFalsy(e) then Unclassified else Classify(ToLower(ErrorMessage(e)))
  }

  /** `parseICError`. */
  function ParseICError(e: JsValue): (p: ParsedICError)
    ensures IsFalsy(e) ==> p == Initial
    ensures !IsFalsy(e) ==> p.details == Some(ExtractDetails(ErrorMessage(e)))
    ensures !IsFalsy(e) ==> p.details.Some? && p.details.value.rawMessage == ErrorMessage(e)
    // Out of cycles also reports the canister as stopped; otherwise at most one flag is set.
    ensures p.isOutOfCycles ==> p.isCanisterStopped
    ensures FlagCount(p) <= (if p.isOutOfCycles then 2 else 1)
    ensures FlagCount(p) == 0 <==> CategoryOf(e) == Unclassified
    ensures FlagCount(p) == 0 ==> p.title == DefaultTitle && p.message == DefaultMessage
  {
    if IsFalsy(e) then Initial
    else
      var message := ErrorMessage(e);
      var c := Classify(ToLower(message));
      assert c == CategoryOf(e);
      Verdict(c, Some(ExtractDetails(message)))
  }

  // ---------------------------------------------------------------------------------
  // Properties
  // ---------------------------------------------------------------------------------

  /** Two results agree on everything except the technical details. */
  predicate SameVerdict(p: ParsedICError, q: ParsedICError) {
    p.(details := None) == q.(details := None)
  }

  /** The checks run in a fixed order, and a later one applies only when no earlier one does. */
  lemma ClassificationOrder(l: string)
    ensures Classify(l) == InvalidCanisterId <==> InvalidIdGuard(l)
    ensures Classify(l) == OutOfCycles <==> !InvalidIdGuard(l) && OutOfCyclesGuard(l)
    ensures Classify(l) == CanisterStopped <==> !InvalidIdGuard(l) && !OutOfCyclesGuard(l) && StoppedGuard(l)
    ensures Classify(l) == Unreachable <==>
      !InvalidIdGuard(l) && !OutOfCyclesGuard(l) && !StoppedGuard(l) && UnreachableGuard(l)
    ensures Classify(l) == ApiMismatch <==>
      !InvalidIdGuard(l) && !OutOfCyclesGuard(l) && !StoppedGuard(l) && !UnreachableGuard(l) && ApiMismatchGuard(l)
    ensures Classify(l) == AuthFailure <==>
      !InvalidIdGuard(l) && !OutOfCyclesGuard(l) && !StoppedGuard(l) && !UnreachableGuard(l)
      && !ApiMismatchGuard(l) && AuthGuard(l)
    ensures Classify(l) == Unclassified <==>
      !InvalidIdGuard(l) && !OutOfCyclesGuard(l) && !StoppedGuard(l)
      && !UnreachableGuard(l) && !ApiMismatchGuard(l) && !AuthGuard(l)
  {
  }

  /** An invalid-ID phrase decides the verdict, whatever other phrases the message holds. */
  lemma InvalidIdWins(m: string)
    requires InvalidIdGuard(ToLower(m))
    ensures var p := ParseICError(Str(m));
      && p.isInvalidCanisterId && FlagCount(p) == 1 && !IsBackendUnavailable(p)
      && p.title == InvalidIdTitle && p.message == InvalidIdMessage
  {
    assert |ToLower(m)| == |m|;
    assert CategoryOf(Str(m)) == InvalidCanisterId;
    ParseICErrorReports(Str(m));
  }

  lemma InvalidPrincipalTimeoutGuards(l: string)
    requires l == "invalid principal: request timeout"
    ensures InvalidIdGuard(l) && UnreachableGuard(l)
  {
    assert OccursAt(l, "invalid principal", 0);
    ContainsAt(l, "invalid principal", 0);
    assert OccursAt(l, "timeout", 27);
    ContainsAt(l, "timeout", 27);
  }

  lemma ToLowerOfSample(m: string)
    requires m == "Invalid principal: request timeout"
    ensures ToLower(m) == "invalid principal: request timeout"
  {
  }

  /** For example, "Invalid principal: request timeout" is an invalid-ID error, not a timeout. */
  lemma InvalidIdBeatsTimeout(m: string)
    requires m == "Invalid principal: request timeout"
    ensures var p := ParseICError(Str(m));
      p.isInvalidCanisterId && !p.isBackendUnavailable && p.title == InvalidIdTitle
  {
    var l := ToLower(m);
    assert l == "invalid principal: request timeout" by {
      ToLowerOfSample(m);
    }
    InvalidPrincipalTimeoutGuards(l);
    InvalidIdWins(m);
  }

  /** Messages that differ only in ASCII letter case are classified alike. */
  lemma CaseInsensitive(m1: string, m2: string)
    requires ToLower(m1) == ToLower(m2)
    ensures SameVerdict(ParseICError(Str(m1)), ParseICError(Str(m2)))
  {
    assert |m1| == |m2|;
    if m1 == "" {
      assert m2 == "";
    } else {
      assert m2 != "";
      SameCategory(m1, m2);
      SameCategorySameVerdict(Str(m1), Str(m2));
    }
  }

  /** Two thrown values of one category get the same verdict, whatever their details. */
  lemma SameCategorySameVerdict(e1: JsValue, e2: JsValue)
    requires !IsFalsy(e1) && !IsFalsy(e2) && CategoryOf(e1) == CategoryOf(e2)
    ensures SameVerdict(ParseICError(e1), ParseICError(e2))
  {
    ParseICErrorIsVerdict(e1);
    ParseICErrorIsVerdict(e2);
    VerdictIgnoresDetails(CategoryOf(e1), Some(ExtractDetails(ErrorMessage(e1))), Some(ExtractDetails(ErrorMessage(e2))));
  }

  lemma SameCategory(m1: string, m2: string)
    requires ToLower(m1) == ToLower(m2)
    ensures CategoryOf(Str(m1)) == CategoryOf(Str(m2))
  {
    assert |m1| == |m2|;
    if m1 != "" {
      assert m2 != "";
    }
  }

  lemma VerdictIgnoresDetails(c: Category, d1: Option<Details>, d2: Option<Details>)
    ensures SameVerdict(Verdict(c, d1), Verdict(c, d2))
  {
  }

  lemma LowerCaseFormSameVerdict(m: string)
    ensures SameVerdict(ParseICError(Str(m)), ParseICError(Str(ToLower(m))))
  {
    ToLowerIdempotent(m);
    CaseInsensitive(m, ToLower(m));
  }

  /** Every phrase the classification looks for. */
  const Keywords: seq<string> := [
    "invalid canister id", "invalid canister-id", "malformed principal", "invalid principal",
    "could not parse principal", "text not valid", "principal", "invalid",
    "out of cycles", "insufficient cycles", "canister has run out of cycles", "cycles", "insufficient", "out of",
    "canister", "stopped", "stopping", "canister is not running",
    "fetch", "failed", "network", "error", "could not reach", "connection", "refused", "timeout",
    "unreachable", "not available", "service unavailable",
    "method not found", "function not found", "candid", "mismatch", "interface",
    "unauthorized", "authentication", "not authenticated", "permission denied"
  ]

  /** Without any of the phrases, no check applies. */
  lemma NoKeywordUnclassified(l: string)
    requires forall i :: 0 <= i < |Keywords| ==> !Contains(l, Keywords[i])
    ensures Classify(l) == Unclassified
  {
    NoKeywordNoInvalidId(l);
    NoKeywordNoCycles(l);
    NoKeywordNotStopped(l);
    NoKeywordReachable(l);
    NoKeywordNoMismatch(l);
    NoKeywordNoAuth(l);
  }

  lemma NoKeywordNoInvalidId(l: string)
    requires forall i :: 0 <= i < |Keywords| ==> !Contains(l, Keywords[i])
    ensures !InvalidIdGuard(l)
  {
    assert !Contains(l, Keywords[0]) && !Contains(l, Keywords[1]) && !Contains(l, Keywords[2]);
    assert !Contains(l, Keywords[3]) && !Contains(l, Keywords[4]) && !Contains(l, Keywords[5]);
    assert !Contains(l, Keywords[6]);
  }

  lemma NoKeywordNoCycles(l: string)
    requires forall i :: 0 <= i < |Keywords| ==> !Contains(l, Keywords[i])
    ensures !OutOfCyclesGuard(l)
  {
    assert !Contains(l, Keywords[8]) && !Contains(l, Keywords[9]);
    assert !Contains(l, Keywords[10]) && !Contains(l, Keywords[11]);
  }

  lemma NoKeywordNotStopped(l: string)
    requires forall i :: 0 <= i < |Keywords| ==> !Contains(l, Keywords[i])
    ensures !StoppedGuard(l)
  {
    assert !Contains(l, Keywords[14]) && !Contains(l, Keywords[17]);
  }

  lemma NoKeywordReachable(l: string)
    requires forall i :: 0 <= i < |Keywords| ==> !Contains(l, Keywords[i])
    ensures !UnreachableGuard(l)
  {
    assert !Contains(l, Keywords[18]) && !Contains(l, Keywords[20]) && !Contains(l, Keywords[22]);
    assert !Contains(l, Keywords[23]) && !Contains(l, Keywords[25]) && !Contains(l, Keywords[26]);
    assert !Contains(l, Keywords[27]) && !Contains(l, Keywords[28]);
  }

  lemma NoKeywordNoMismatch(l: string)
    requires forall i :: 0 <= i < |Keywords| ==> !Contains(l, Keywords[i])
    ensures !ApiMismatchGuard(l)
  {
    assert !Contains(l, Keywords[29]) && !Contains(l, Keywords[30]);
    assert !Contains(l, Keywords[31]) && !Contains(l, Keywords[33]);
  }

  lemma NoKeywordNoAuth(l: string)
    requires forall i :: 0 <= i < |Keywords| ==> !Contains(l, Keywords[i])
    ensures !AuthGuard(l)
  {
    assert !Contains(l, Keywords[34]) && !Contains(l, Keywords[35]);
    assert !Contains(l, Keywords[36]) && !Contains(l, Keywords[37]);
  }

  /** A message containing none of the phrases keeps the default title and message, with no flag. */
  lemma NoKeywordKeepsDefault(e: JsValue)
    requires forall i :: 0 <= i < |Keywords| ==> !Contains(ToLower(ErrorMessage(e)), Keywords[i])
    ensures var p := ParseICError(e);
      p.title == DefaultTitle && p.message == DefaultMessage && FlagCount(p) == 0
  {
    NoKeywordUnclassified(ToLower(ErrorMessage(e)));
  }

  /** A thrown value that is not falsy gets the verdict of its category. */
  lemma ParseICErrorIsVerdict(e: JsValue)
    requires !IsFalsy(e)
    ensures ParseICError(e) == Verdict(CategoryOf(e), Some(ExtractDetails(ErrorMessage(e))))
  {
  }

  /**
   * What `parseICError` reports for any input: exactly the flags of the input's category,
   * and that category's title and message. A falsy input counts as unclassified.
   */
  lemma ParseICErrorReports(e: JsValue)
    ensures var p := ParseICError(e); var c := CategoryOf(e);
      && (p.isInvalidCanisterId <==> c == InvalidCanisterId)
      && (p.isOutOfCycles <==> c == OutOfCycles)
      && (p.isCanisterStopped <==> c == OutOfCycles || c == CanisterStopped)
      && (p.isBackendUnavailable <==> c == Unreachable)
      && (p.isApiMismatch <==> c == ApiMismatch)
      && (p.isAuthError <==> c == AuthFailure)
      && (c == InvalidCanisterId ==> p.title == InvalidIdTitle && p.message == InvalidIdMessage)
      && (c == OutOfCycles ==> p.title == OutOfCyclesTitle && p.message == OutOfCyclesMessage)
      && (c == CanisterStopped ==> p.title == StoppedTitle && p.message == StoppedMessage)
      && (c == Unreachable ==> p.title == UnreachableTitle && p.message == UnreachableMessage)
      && (c == ApiMismatch ==> p.title == ApiMismatchTitle && p.message == ApiMismatchMessage)
      && (c == AuthFailure ==> p.title == AuthTitle && p.message == AuthMessage)
      && (c == Unclassified ==> p.title == DefaultTitle && p.message == DefaultMessage)
  {
    if !IsFalsy(e) {
      ParseICErrorIsVerdict(e);
    }
  }

  lemma VerdictHelpers(c: Category, d: Option<Details>)
    ensures var p := Verdict(c, d);
      && (IsBackendUnavailable(p) <==> c in {OutOfCycles, CanisterStopped, Unreachable})
      && (IsApiMismatch(p) <==> c == ApiMismatch)
      && (IsAuthError(p) <==> c == AuthFailure)
      && (IsInvalidCanisterId(p) <==> c == InvalidCanisterId)
  {
  }

  /** `isBackendUnavailable` holds exactly for the stopped, out-of-cycles and unreachable categories. */
  lemma HelpersFollowCategory(e: JsValue)
    ensures var p := ParseICError(e); var c := CategoryOf(e);
      && (IsBackendUnavailable(p) <==> c in {OutOfCycles, CanisterStopped, Unreachable})
      && (IsApiMismatch(p) <==> c == ApiMismatch)
      && (IsAuthError(p) <==> c == AuthFailure)
      && (IsInvalidCanisterId(p) <==> c == InvalidCanisterId)
  {
    if !IsFalsy(e) {
      ParseICErrorIsVerdict(e);
      VerdictHelpers(CategoryOf(e), Some(ExtractDetails(ErrorMessage(e))));
    }
  }

  // ---------------------------------------------------------------------------------
  // The matcher against what the patterns mean
  // ---------------------------------------------------------------------------------

  lemma PatternsWellFormed()
    ensures WellFormed(RequestIdPrimary) && WellFormed(RequestIdFallback)
    ensures WellFormed(RejectCodePrimary) && WellFormed(RejectCodeFallback)
    ensures WellFormed(ErrorCodePrimary) && WellFormed(ErrorCodeFallback)
  {
  }

  /** The run `RunEnd` finds consists of `cls` characters and cannot be extended. */
  lemma {:induction false} RunEndIsRun(s: string, i: nat, cls: CharClass)
    requires i <= |s|
    ensures IsRun(s, i, RunEnd(s, i, cls), cls)
    decreases |s| - i
  {
    if i < |s| && InClass(s[i], cls) {
      RunEndIsRun(s, i + 1, cls);
    }
  }

  /** `RunEnd` finds exactly the maximal run. */
  lemma {:induction false} RunEndIsTheRun(s: string, a: nat, b: nat, cls: CharClass)
    requires a <= |s|
    ensures IsRun(s, a, b, cls) <==> b == RunEnd(s, a, cls)
    decreases |s| - a
  {
    RunEndIsRun(s, a, cls);
    if a < |s| && InClass(s[a], cls) {
      RunEndIsTheRun(s, a + 1, b, cls);
    }
  }

  lemma MatchTailSound(s: string, j: nat, p: Pattern)
    requires j <= |s| && MatchTail(s, j, p).Some?
    ensures TailMatch(s, j, p, MatchTail(s, j, p).value)
  {
    var e := RunEnd(s, j, p.sep);
    RunEndIsRun(s, j, p.sep);
    RunEndIsRun(s, e, p.capture);
  }

  lemma MatchTailComplete(s: string, j: nat, p: Pattern, cap: string)
    requires j <= |s| && TailMatch(s, j, p, cap)
    ensures MatchTail(s, j, p) == Some(cap)
  {
    var e: nat :| IsRun(s, j, e, p.sep) && e - j >= p.sepMin
      && |cap| >= 1 && IsRun(s, e, e + |cap|, p.capture) && s[e..e + |cap|] == cap;
    RunEndIsTheRun(s, j, e, p.sep);
    RunEndIsTheRun(s, e, e + |cap|, p.capture);
  }

  /** `MatchTail` captures `cap` exactly when the separators and the capture run are there. */
  lemma MatchTailSpec(s: string, j: nat, p: Pattern, cap: string)
    requires j <= |s|
    ensures MatchTail(s, j, p) == Some(cap) <==> TailMatch(s, j, p, cap)
  {
    if MatchTail(s, j, p) == Some(cap) {
      MatchTailSound(s, j, p);
    }
    if TailMatch(s, j, p, cap) {
      MatchTailComplete(s, j, p, cap);
    }
  }

  /** Where a successful attempt's literal part ends: the tail is matched from there. */
  lemma MatchFromTail(s: string, k: nat, p: Pattern) returns (j: nat)
    requires MatchFrom(s, k, p).Some?
    ensures PrefixEnd(s, k, p, j) && j <= |s| && MatchTail(s, j, p) == MatchFrom(s, k, p)
  {
    var h := k + |p.head|;
    j := if JoinerAt(s, h, p) then h + 1 + |p.tail| else h + |p.tail|;
  }

  /** A literal part ending at `j`, followed by a tail match, is a match. */
  lemma TailGivesMatch(s: string, k: nat, p: Pattern, j: nat, cap: string)
    requires PrefixEnd(s, k, p, j) && j <= |s| && MatchTail(s, j, p) == Some(cap)
    ensures MatchAt(s, k, p, cap)
  {
    MatchTailSpec(s, j, p, cap);
  }

  /** What one attempt at `k` captures is a match of `p` there. */
  lemma MatchFromSound(s: string, k: nat, p: Pattern)
    requires MatchFrom(s, k, p).Some?
    ensures MatchAt(s, k, p, MatchFrom(s, k, p).value)
  {
    var j := MatchFromTail(s, k, p);
    TailGivesMatch(s, k, p, j, MatchFrom(s, k, p).value);
  }

  /** With a joiner present, the plain reading of the tail cannot start with the joiner character. */
  lemma JoinerExcludesPlainTail(s: string, h: nat, p: Pattern)
    requires WellFormed(p)
    ensures p.joiner && h < |s| && WordAt(s, h, p.tail) ==> s[h] != '_' && s[h] != '-'
  {
    if p.joiner && h < |s| && WordAt(s, h, p.tail) {
      assert LowerChar(s[h + 0]) == LowerChar(p.tail[0]);
    }
  }

  /** Under a well-formed pattern the literal part has one end: the joined reading when it applies. */
  lemma PrefixEndUnique(s: string, k: nat, p: Pattern, j: nat)
    requires WellFormed(p) && PrefixEnd(s, k, p, j)
    ensures var h := k + |p.head|;
      if JoinerAt(s, h, p) then j == h + 1 + |p.tail| else j == h + |p.tail| && WordAt(s, h, p.tail)
  {
    JoinerExcludesPlainTail(s, k + |p.head|, p);
  }

  /** Where a match of a well-formed pattern hands over to the separators. */
  lemma MatchAtTail(s: string, k: nat, p: Pattern, cap: string) returns (j: nat)
    requires WellFormed(p) && MatchAt(s, k, p, cap)
    ensures WordAt(s, k, p.head)
    ensures var h := k + |p.head|;
      if JoinerAt(s, h, p) then j == h + 1 + |p.tail| else j == h + |p.tail| && WordAt(s, h, p.tail)
    ensures j <= |s| && MatchTail(s, j, p) == Some(cap)
  {
    j :| PrefixEnd(s, k, p, j) && TailMatch(s, j, p, cap);
    PrefixEndUnique(s, k, p, j);
    MatchTailSpec(s, j, p, cap);
  }

  /** An attempt whose literal part ends at `j` captures what the tail matches from there. */
  lemma MatchFromOfTail(s: string, k: nat, p: Pattern, j: nat, cap: string)
    requires WordAt(s, k, p.head)
    requires var h := k + |p.head|;
      if JoinerAt(s, h, p) then j == h + 1 + |p.tail| else j == h + |p.tail| && WordAt(s, h, p.tail)
    requires j <= |s| && MatchTail(s, j, p) == Some(cap)
    ensures MatchFrom(s, k, p) == Some(cap)
  {
  }

  /** A match of `p` at `k` is what one attempt there captures. */
  lemma MatchFromComplete(s: string, k: nat, p: Pattern, cap: string)
    requires WellFormed(p) && MatchAt(s, k, p, cap)
    ensures MatchFrom(s, k, p) == Some(cap)
  {
    var j := MatchAtTail(s, k, p, cap);
    MatchFromOfTail(s, k, p, j, cap);
  }

  /** One attempt at `k` captures `cap` exactly when `p` matches there with that capture. */
  lemma MatchFromSpec(s: string, k: nat, p: Pattern, cap: string)
    requires WellFormed(p)
    ensures MatchFrom(s, k, p) == Some(cap) <==> MatchAt(s, k, p, cap)
  {
    if MatchFrom(s, k, p) == Some(cap) {
      MatchFromSound(s, k, p);
    }
    if MatchAt(s, k, p, cap) {
      MatchFromComplete(s, k, p, cap);
    }
  }

  lemma MatchesAtIff(s: string, k: nat, p: Pattern)
    requires WellFormed(p)
    ensures MatchesAt(s, k, p) <==> MatchFrom(s, k, p).Some?
  {
    if MatchFrom(s, k, p).Some? {
      MatchFromSpec(s, k, p, MatchFrom(s, k, p).value);
    }
    if MatchesAt(s, k, p) {
      var cap :| MatchAt(s, k, p, cap);
      MatchFromSpec(s, k, p, cap);
    }
  }

  /** Where `p` matches at `i`, the leftmost match from `i` is that one. */
  lemma LeftmostHere(s: string, i: nat, p: Pattern, cap: string)
    requires i <= |s| && MatchesAt(s, i, p)
    ensures LeftmostMatch(s, i, p, cap) <==> MatchAt(s, i, p, cap)
  {
    if LeftmostMatch(s, i, p, cap) {
      var k: nat :| i <= k <= |s| && MatchAt(s, k, p, cap) && forall q :: i <= q < k ==> !MatchesAt(s, q, p);
      assert !(i < k);
    }
  }

  /** Where `p` does not match at `i`, the leftmost match from `i` is the leftmost from `i + 1`. */
  lemma LeftmostSkip(s: string, i: nat, p: Pattern, cap: string)
    requires i < |s| && !MatchesAt(s, i, p)
    ensures LeftmostMatch(s, i, p, cap) <==> LeftmostMatch(s, i + 1, p, cap)
  {
    if LeftmostMatch(s, i, p, cap) {
      var k: nat :| i <= k <= |s| && MatchAt(s, k, p, cap) && forall q :: i <= q < k ==> !MatchesAt(s, q, p);
      assert MatchesAt(s, k, p);
      assert i + 1 <= k;
    }
    if LeftmostMatch(s, i + 1, p, cap) {
      var k: nat :| i + 1 <= k <= |s| && MatchAt(s, k, p, cap) && forall q :: i + 1 <= q < k ==> !MatchesAt(s, q, p);
      assert forall q :: i <= q < k ==> !MatchesAt(s, q, p);
    }
  }

  lemma SearchHere(s: string, i: nat, p: Pattern, cap: string)
    requires WellFormed(p) && i <= |s| && MatchesAt(s, i, p)
    ensures Search(s, i, p) == Some(cap) <==> LeftmostMatch(s, i, p, cap)
  {
    MatchesAtIff(s, i, p);
    MatchFromSpec(s, i, p, cap);
    LeftmostHere(s, i, p, cap);
  }

  lemma SearchAtEnd(s: string, p: Pattern, cap: string)
    requires WellFormed(p) && !MatchesAt(s, |s|, p)
    ensures Search(s, |s|, p) == None && !LeftmostMatch(s, |s|, p, cap)
  {
    MatchesAtIff(s, |s|, p);
  }

  lemma SearchPasses(s: string, i: nat, p: Pattern, cap: string)
    requires WellFormed(p) && i < |s| && !MatchesAt(s, i, p)
    ensures Search(s, i, p) == Search(s, i + 1, p)
    ensures LeftmostMatch(s, i, p, cap) <==> LeftmostMatch(s, i + 1, p, cap)
  {
    MatchesAtIff(s, i, p);
    LeftmostSkip(s, i, p, cap);
  }

  /** `Search` from `i` captures `cap` exactly when that is the capture of the leftmost match from `i`. */
  lemma {:induction false} SearchCapture(s: string, i: nat, p: Pattern, cap: string)
    requires WellFormed(p) && i <= |s|
    ensures Search(s, i, p) == Some(cap) <==> LeftmostMatch(s, i, p, cap)
    decreases |s| - i
  {
    if MatchesAt(s, i, p) {
      SearchHere(s, i, p, cap);
    } else if i == |s| {
      SearchAtEnd(s, p, cap);
    } else {
      SearchCapture(s, i + 1, p, cap);
      SearchPasses(s, i, p, cap);
    }
  }

  /** `p` matches at no position from `i` on. */
  ghost predicate NoMatchFrom(s: string, i: nat, p: Pattern) {
    forall q :: i <= q <= |s| ==> !MatchesAt(s, q, p)
  }

  lemma NoMatchStep(s: string, i: nat, p: Pattern)
    requires i <= |s|
    ensures NoMatchFrom(s, i, p) <==> !MatchesAt(s, i, p) && (i < |s| ==> NoMatchFrom(s, i + 1, p))
  {
  }

  lemma SearchNoneHere(s: string, i: nat, p: Pattern)
    requires WellFormed(p) && i <= |s| && MatchesAt(s, i, p)
    ensures Search(s, i, p).Some? && !NoMatchFrom(s, i, p)
  {
    MatchesAtIff(s, i, p);
  }

  lemma SearchNoneAtEnd(s: string, p: Pattern)
    requires WellFormed(p) && !MatchesAt(s, |s|, p)
    ensures Search(s, |s|, p).None? && NoMatchFrom(s, |s|, p)
  {
    SearchAtEnd(s, p, "");
    NoMatchStep(s, |s|, p);
  }

  lemma SearchNoneSkip(s: string, i: nat, p: Pattern)
    requires WellFormed(p) && i < |s| && !MatchesAt(s, i, p)
    requires Search(s, i + 1, p).None? <==> NoMatchFrom(s, i + 1, p)
    ensures Search(s, i, p).None? <==> NoMatchFrom(s, i, p)
  {
    SearchPasses(s, i, p, "");
    NoMatchStep(s, i, p);
  }

  lemma SearchNoneStep(s: string, i: nat, p: Pattern)
    requires WellFormed(p) && i <= |s|
    requires i < |s| ==> (Search(s, i + 1, p).None? <==> NoMatchFrom(s, i + 1, p))
    ensures Search(s, i, p).None? <==> NoMatchFrom(s, i, p)
  {
    if MatchesAt(s, i, p) {
      SearchNoneHere(s, i, p);
    } else if i == |s| {
      SearchNoneAtEnd(s, p);
    } else {
      SearchNoneSkip(s, i, p);
    }
  }

  /** `Search` from `i` finds nothing exactly when `p` matches at no position from `i` on. */
  lemma {:induction false} SearchNone(s: string, i: nat, p: Pattern)
    requires WellFormed(p) && i <= |s|
    ensures Search(s, i, p).None? <==> NoMatchFrom(s, i, p)
    decreases |s| - i
  {
    if i < |s| {
      SearchNone(s, i + 1, p);
      SearchNoneStep(s, i, p);
    } else {
      SearchNoneStep(s, i, p);
    }
  }

  /**
   * `Search` returns the capture of the leftmost position from `i` on where `p` matches,
   * and nothing when it matches nowhere.
   */
  lemma SearchSpec(s: string, i: nat, p: Pattern)
    requires WellFormed(p) && i <= |s|
    ensures forall cap :: Search(s, i, p) == Some(cap) <==> LeftmostMatch(s, i, p, cap)
    ensures Search(s, i, p).None? <==> forall q :: i <= q <= |s| ==> !MatchesAt(s, q, p)
  {
    forall cap
      ensures Search(s, i, p) == Some(cap) <==> LeftmostMatch(s, i, p, cap)
    {
      SearchCapture(s, i, p, cap);
    }
    SearchNone(s, i, p);
  }

  /** `primary || fallback`: the primary's leftmost capture when it matches anywhere, else the fallback's. */
  lemma MatchEitherSpec(s: string, primary: Pattern, fallback: Pattern)
    requires WellFormed(primary) && WellFormed(fallback) && primary.capture == fallback.capture
    ensures forall cap :: MatchEither(s, primary, fallback) == Some(cap) <==> Found(s, primary, fallback, cap)
    ensures MatchEither(s, primary, fallback).None? <==> !MatchesSomewhere(s, primary) && !MatchesSomewhere(s, fallback)
  {
    SearchSpec(s, 0, primary);
    SearchSpec(s, 0, fallback);
  }

  /** Each detail is the capture `Found` names, and the reject code is the value of its digits. */
  lemma ExtractDetailsSpec(message: string)
    ensures var d := ExtractDetails(message);
      && (forall id :: d.requestId == Some(id) <==> Found(message, RequestIdPrimary, RequestIdFallback, id))
      && (forall code :: d.errorCode == Some(code) <==> Found(message, ErrorCodePrimary, ErrorCodeFallback, code))
      && (d.rejectCode.None? <==>
            !MatchesSomewhere(message, RejectCodePrimary) && !MatchesSomewhere(message, RejectCodeFallback))
      && (forall digits :: Found(message, RejectCodePrimary, RejectCodeFallback, digits) ==>
            AllDigits(digits) && d.rejectCode == Some(ParseNat(digits)))
  {
    PatternsWellFormed();
    MatchEitherSpec(message, RequestIdPrimary, RequestIdFallback);
    MatchEitherSpec(message, ErrorCodePrimary, ErrorCodeFallback);
    MatchEitherSpec(message, RejectCodePrimary, RejectCodeFallback);
  }

  /** Whatever the primary reject-code pattern captures first is the reported reject code. */
  lemma RejectCodeFromPrimary(m: string, digits: string)
    requires Search(m, 0, RejectCodePrimary) == Some(digits)
    ensures ParseICError(Str(m)).details.Some?
    ensures ParseICError(Str(m)).details.value.rejectCode == Some(ParseNat(digits))
  {
    assert !IsFalsy(Str(m)) by { assert |m| > 0; }
  }

  /** "Reject code:", a space and the digits of `n` at `k` form a match of the primary pattern. */
  lemma RejectPrimaryMatchesAt(m: string, k: nat, n: nat)
    requires WordAt(m, k, RejectCodePrimary.head)
    requires var digits := NatToString(n);
      && k + 13 + |digits| <= |m| && m[k + 12] == ' ' && m[k + 13..k + 13 + |digits|] == digits
      && (k + 13 + |digits| < |m| ==> !IsDigit(m[k + 13 + |digits|]))
    ensures MatchAt(m, k, RejectCodePrimary, NatToString(n))
  {
    var digits := NatToString(n);
    var p := RejectCodePrimary;
    assert PrefixEnd(m, k, p, k + 12);
    assert m[k + 13] == digits[0];
    assert IsRun(m, k + 12, k + 13, Whitespace);
    forall t | k + 13 <= t < k + 13 + |digits|
      ensures InClass(m[t], Decimal)
    {
      assert m[t] == m[k + 13..k + 13 + |digits|][t - k - 13];
    }
    assert IsRun(m, k + 13, k + 13 + |digits|, Decimal);
    assert TailMatch(m, k + 12, p, digits);
  }

  /** A match with no match before it is what `Search` from the start returns. */
  lemma SearchFindsFirstMatch(s: string, k: nat, p: Pattern, cap: string)
    requires WellFormed(p) && k <= |s| && MatchAt(s, k, p, cap)
    requires forall q :: 0 <= q < k ==> !MatchesAt(s, q, p)
    ensures Search(s, 0, p) == Some(cap)
  {
    assert LeftmostMatch(s, 0, p, cap);
    SearchCapture(s, 0, p, cap);
  }

  /** "Reject code: <n>" placed after `pre` is a match of the primary pattern at `|pre|`. */
  lemma RejectPrimaryAfter(pre: string, n: nat, rest: string)
    requires rest == [] || !IsDigit(rest[0])
    ensures MatchAt(pre + "Reject code: " + NatToString(n) + rest, |pre|, RejectCodePrimary, NatToString(n))
  {
    var digits := NatToString(n);
    var m := pre + "Reject code: " + digits + rest;
    var k := |pre|;
    forall t | 0 <= t < |RejectCodePrimary.head|
      ensures LowerChar(m[k + t]) == LowerChar(RejectCodePrimary.head[t])
    {
      assert m[k + t] == "Reject code: "[t];
    }
    assert m[k + 12] == ' ';
    assert m[k + 13..k + 13 + |digits|] == digits;
    assert k + 13 + |digits| < |m| ==> m[k + 13 + |digits|] == rest[0];
    RejectPrimaryMatchesAt(m, k, n);
  }

  /** The primary reject-code pattern finds the digits of the first "Reject code: <n>". */
  lemma RejectPrimaryFindsFirst(pre: string, n: nat, rest: string)
    requires rest == [] || !IsDigit(rest[0])
    requires forall q :: 0 <= q < |pre| ==> !MatchesAt(pre + "Reject code: " + NatToString(n) + rest, q, RejectCodePrimary)
    ensures Search(pre + "Reject code: " + NatToString(n) + rest, 0, RejectCodePrimary) == Some(NatToString(n))
  {
    RejectPrimaryAfter(pre, n, rest);
    PatternsWellFormed();
    SearchFindsFirstMatch(pre + "Reject code: " + NatToString(n) + rest, |pre|, RejectCodePrimary, NatToString(n));
  }

  /**
   * A "Reject code: <n>" with no earlier match of the primary pattern is read as reject
   * code n, whatever text precedes it.
   */
  lemma RejectCodeFirstOccurrence(pre: string, n: nat, rest: string)
    requires rest == [] || !IsDigit(rest[0])
    requires forall q :: 0 <= q < |pre| ==> !MatchesAt(pre + "Reject code: " + NatToString(n) + rest, q, RejectCodePrimary)
    ensures var m := pre + "Reject code: " + NatToString(n) + rest;
      ParseICError(Str(m)).details.Some? && ParseICError(Str(m)).details.value.rejectCode == Some(n)
  {
    RejectPrimaryFindsFirst(pre, n, rest);
    RejectCodeFromPrimary(pre + "Reject code: " + NatToString(n) + rest, NatToString(n));
    ParseNatToString(n);
  }
}
