/** The fixed allowlist of PLK login codes (`src/frontend/src/lib/plkAllowlist.ts`). */
module PlkAllowlist {
  import opened Text

  const AuthorizedCodes: set<string> := {
    "482917", "705364", "193852", "640291", "958473",
    "271604", "834920", "506187", "719345", "462890",
    "395741", "870256", "124698", "953071", "687432",
    "240915", "531768", "906524", "378159", "654203"
  }

  /** Exact membership: no trimming, no normalisation. */
  predicate IsAuthorizedPlk(code: string) {
    code in AuthorizedCodes
  }

  predicate IsSixDigitCode(code: string) {
    |code| == 6 && AllDigits(code)
  }

  /**
   * The two halves of the list, in source order. They exist only so that the count of
   * twenty codes can be proved ten at a time; the proof of `AllowlistHasTwentyCodes` checks
   * that together they are exactly `AuthorizedCodes`.
   */
  const FirstTen: set<string> := {"482917", "705364", "193852", "640291", "958473", "271604", "834920", "506187", "719345", "462890"}
  const LastTen: set<string> := {"395741", "870256", "124698", "953071", "687432", "240915", "531768", "906524", "378159", "654203"}

  lemma FirstTenDistinct()
    ensures |FirstTen| == 10
  {
  }

  lemma LastTenDistinct()
    ensures |LastTen| == 10
  {
  }

  lemma HalvesDisjoint()
    ensures FirstTen !! LastTen
  {
  }

  /** The twenty listed codes are pairwise distinct. */
  lemma AllowlistHasTwentyCodes()
    ensures |AuthorizedCodes| == 20
  {
    FirstTenDistinct();
    LastTenDistinct();
    HalvesDisjoint();
    assert AuthorizedCodes == FirstTen + LastTen;
  }

  lemma AuthorizedCodesAreSixDigits()
    ensures forall c :: c in AuthorizedCodes ==> IsSixDigitCode(c)
  {
  }

  /** Whatever is not six ASCII digits is refused. */
  lemma AuthorizedImpliesSixDigits(code: string)
    ensures IsAuthorizedPlk(code) ==> IsSixDigitCode(code)
  {
    AuthorizedCodesAreSixDigits();
  }

  /** A listed code is accepted only verbatim: surrounding blanks or a shorter prefix are refused. */
  lemma NoNormalisation()
    ensures IsAuthorizedPlk("482917")
    ensures !IsAuthorizedPlk(" 482917") && !IsAuthorizedPlk("482917 ")
    ensures !IsAuthorizedPlk("48291") && !IsAuthorizedPlk("")
  {
    AuthorizedImpliesSixDigits(" 482917");
    AuthorizedImpliesSixDigits("482917 ");
    AuthorizedImpliesSixDigits("48291");
    AuthorizedImpliesSixDigits("");
  }
}
