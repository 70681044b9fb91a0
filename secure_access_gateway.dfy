/**
 * The PLK login screen (`src/frontend/src/pages/SecureAccessGateway.tsx`): the code typed so
 * far, the error shown, the loading flag, and the three handlers that update them and, on
 * a listed code, write a fresh session ID.
 */
module SecureAccessGateway {
  import opened Wrappers
  import opened Text
  import opened Format
  import opened PlkAllowlist
  import opened PlkSession

  const CodeLength: nat := 6
  const IncompleteCodeError: string := "Please enter a complete 6-digit PLK code"
  const InvalidCodeError: string := "Invalid PLK code. Please check your code and try again."

  /** What an input change keeps of the typed text: its digits, at most the first six. */
  function SanitizeInput(raw: string): (code: string)
    ensures AllDigits(code) && |code| <= CodeLength
    ensures IsSubsequence(code, raw)
    ensures |code| == if |StripNonDigits(raw)| < CodeLength then |StripNonDigits(raw)| else CodeLength
    ensures code == StripNonDigits(raw)[..|code|]
  {
    var digits := StripNonDigits(raw);
    var code := if |digits| <= CodeLength then digits else digits[..CodeLength];
    StripNonDigitsSubsequence(raw);
    PrefixIsSubsequence(code, digits, raw);
    code
  }

  /** A prefix of a subsequence is a subsequence. */
  lemma {:induction false} PrefixIsSubsequence(p: string, a: string, b: string)
    requires |p| <= |a| && p == a[..|p|] && IsSubsequence(a, b)
    ensures IsSubsequence(p, b)
    decreases |b|
  {
    if p != [] && b != [] {
      if a[0] == b[0] {
        assert p[1..] == a[1..][..|p| - 1];
        PrefixIsSubsequence(p[1..], a[1..], b[1..]);
      } else {
        PrefixIsSubsequence(p, a, b[1..]);
      }
    }
  }

  /** A listed code, typed as it is, is kept by the input sanitising unchanged. */
  lemma AuthorizedCodeSurvivesInput(code: string)
    requires IsAuthorizedPlk(code)
    ensures SanitizeInput(code) == code
  {
    AuthorizedImpliesSixDigits(code);
    StripNonDigitsFixpoint(code);
  }

  class Gateway {
    var plkCode: string
    var error: string
    var isLoading: bool
    /** How many times `onLoginSuccess` has been called. */
    var loginSuccessCalls: nat
    const sessions: SessionStore

    /** Between events: the code is sanitised and nothing is loading. */
    predicate Valid()
      reads this
    {
      AllDigits(plkCode) && |plkCode| <= CodeLength && !isLoading
    }

    constructor (sessions: SessionStore)
      ensures Valid() && plkCode == "" && error == "" && loginSuccessCalls == 0
      ensures this.sessions == sessions
    {
      plkCode := "";
      error := "";
      isLoading := false;
      loginSuccessCalls := 0;
      this.sessions := sessions;
    }

    /** `handleInputChange`: keeps the sanitised code and clears any error. */
    method HandleInputChange(raw: string)
      requires Valid()
      modifies this
      ensures Valid()
      ensures plkCode == SanitizeInput(raw) && error == ""
      ensures isLoading == old(isLoading) && loginSuccessCalls == old(loginSuccessCalls)
    {
      plkCode := SanitizeInput(raw);
      if error != "" {
        error := "";
      }
    }

    /**
     * `handleLogin`, with `random` the value `Math.random()` returns inside
     * `generateUniqueId`. The 300 ms pause between the checks is not modelled.
     */
    method HandleLogin(random: real)
      requires Valid() && 0.0 <= random < 1.0
      modifies this, sessions
      ensures Valid() && plkCode == old(plkCode)
      ensures |plkCode| != CodeLength ==>
        && error == IncompleteCodeError
        && sessions.localStorage == old(sessions.localStorage)
        && loginSuccessCalls == old(loginSuccessCalls)
      ensures |plkCode| == CodeLength && !IsAuthorizedPlk(plkCode) ==>
        && error == InvalidCodeError
        && sessions.localStorage == old(sessions.localStorage)
        && loginSuccessCalls == old(loginSuccessCalls)
      ensures IsAuthorizedPlk(plkCode) ==>
        && error == ""
        && IsValidSession(Some(GenerateUniqueId(random)))
        && sessions.localStorage == (if sessions.windowDefined
                                     then old(sessions.localStorage)[SessionKey := GenerateUniqueId(random)]
                                     else old(sessions.localStorage))
        && loginSuccessCalls == old(loginSuccessCalls) + 1
    {
      if |plkCode| != CodeLength {
        error := IncompleteCodeError;
        return;
      }
      isLoading := true;
      error := "";
      if !IsAuthorizedPlk(plkCode) {
        error := InvalidCodeError;
        isLoading := false;
        return;
      }
      AuthorizedImpliesSixDigits(plkCode);
      var uniqueId := GenerateUniqueId(random);
      sessions.SetSession(uniqueId);
      loginSuccessCalls := loginSuccessCalls + 1;
      isLoading := false;
    }

    /** `handleKeyPress`: Enter logs in, but only with six digits typed. */
    method HandleKeyPress(key: string, random: real)
      requires Valid() && 0.0 <= random < 1.0
      modifies this, sessions
      ensures Valid() && plkCode == old(plkCode)
      ensures !(key == "Enter" && |plkCode| == CodeLength) ==>
        && error == old(error)
        && sessions.localStorage == old(sessions.localStorage)
        && loginSuccessCalls == old(loginSuccessCalls)
      ensures key == "Enter" && IsAuthorizedPlk(plkCode) ==>
        && error == ""
        && sessions.localStorage == (if sessions.windowDefined
                                     then old(sessions.localStorage)[SessionKey := GenerateUniqueId(random)]
                                     else old(sessions.localStorage))
        && loginSuccessCalls == old(loginSuccessCalls) + 1
      ensures key == "Enter" && |plkCode| == CodeLength && !IsAuthorizedPlk(plkCode) ==>
        && error == InvalidCodeError
        && sessions.localStorage == old(sessions.localStorage)
        && loginSuccessCalls == old(loginSuccessCalls)
    {
      if key == "Enter" && |plkCode| == CodeLength {
        HandleLogin(random);
      }
    }
  }

  /** Typing a listed code and logging in leaves a valid session behind. */
  method TypeCodeAndLogin(gateway: Gateway, code: string, random: real) returns (session: Option<string>)
    requires gateway.Valid() && gateway.sessions.windowDefined && IsAuthorizedPlk(code) && 0.0 <= random < 1.0
    modifies gateway, gateway.sessions
    ensures IsValidSession(session) && session == gateway.sessions.Current()
    ensures gateway.loginSuccessCalls == old(gateway.loginSuccessCalls) + 1 && gateway.error == ""
  {
    gateway.HandleInputChange(code);
    AuthorizedCodeSurvivesInput(code);
    gateway.HandleLogin(random);
    session := gateway.sessions.GetSession();
  }
}
