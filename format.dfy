/** Display and input helpers of `src/frontend/src/lib/format.ts`. */
module Format {
  import opened Text

  /** Removes every character that is not an ASCII digit (`value.replace(/\D/g, '')`). */
  function StripNonDigits(s: string): (r: string)
    ensures AllDigits(r)
    ensures |r| <= |s|
  {
    if s == [] then []
    else (if IsDigit(s[0]) then [s[0]] else []) + StripNonDigits(s[1..])
  }

  /** `a` can be obtained from `b` by deleting characters. */
  predicate IsSubsequence(a: string, b: string)
    decreases |b|
  {
    if a == [] then true
    else if b == [] then false
    else if a[0] == b[0] then IsSubsequence(a[1..], b[1..])
    else IsSubsequence(a, b[1..])
  }

  /** The result keeps the input's characters in their original order. */
  lemma {:induction false} StripNonDigitsSubsequence(s: string)
    ensures IsSubsequence(StripNonDigits(s), s)
  {
    if s != [] {
      StripNonDigitsSubsequence(s[1..]);
      var r := StripNonDigits(s);
      if IsDigit(s[0]) {
        assert r[0] == s[0] && r[1..] == StripNonDigits(s[1..]);
      } else {
        assert r == StripNonDigits(s[1..]);
        StripResultIsSubsequenceOfTail(r, s);
      }
    }
  }

  lemma StripResultIsSubsequenceOfTail(r: string, s: string)
    requires s != [] && !IsDigit(s[0]) && AllDigits(r) && IsSubsequence(r, s[1..])
    ensures IsSubsequence(r, s)
  {
    if r != [] {
      assert r[0] != s[0];
    }
  }

  /** Every digit of the input survives, as often as it occurs; nothing else does. */
  lemma {:induction false} StripNonDigitsCounts(s: string)
    ensures forall c :: IsDigit(c) ==> multiset(StripNonDigits(s))[c] == multiset(s)[c]
    ensures forall c :: !IsDigit(c) ==> multiset(StripNonDigits(s))[c] == 0
  {
    if s != [] {
      StripNonDigitsCounts(s[1..]);
      assert s == [s[0]] + s[1..];
      assert multiset(s) == multiset([s[0]]) + multiset(s[1..]);
      var head := if IsDigit(s[0]) then [s[0]] else [];
      assert multiset(StripNonDigits(s)) == multiset(head) + multiset(StripNonDigits(s[1..]));
    }
  }

  /** Digits-only input comes back unchanged, and only digits-only input does. */
  lemma {:induction false} StripNonDigitsFixpoint(s: string)
    ensures StripNonDigits(s) == s <==> AllDigits(s)
  {
    if s != [] {
      StripNonDigitsFixpoint(s[1..]);
      if !IsDigit(s[0]) {
        // The result is no longer than the rest of the input, so it differs from `s`.
        assert |StripNonDigits(s)| <= |s[1..]|;
      } else {
        assert AllDigits(s) <==> AllDigits(s[1..]);
      }
    }
  }

  lemma StripNonDigitsIdempotent(s: string)
    ensures StripNonDigits(StripNonDigits(s)) == StripNonDigits(s)
  {
    StripNonDigitsFixpoint(StripNonDigits(s));
  }

  /** Stripping distributes over concatenation. */
  lemma {:induction false} StripNonDigitsConcat(s: string, t: string)
    ensures StripNonDigits(s + t) == StripNonDigits(s) + StripNonDigits(t)
  {
    if s != [] {
      assert (s + t)[1..] == s[1..] + t;
      StripNonDigitsConcat(s[1..], t);
    } else {
      assert s + t == t;
    }
  }

  /** The rupee sign that prefixes every amount. */
  const Rupee: char := '₹'

  /**
   * `formatINR` on an integral amount: amounts from 1000 up are shown in thousands,
   * rounded to the nearest thousand with halves going up (what `toFixed(0)` does on a
   * positive number), followed by "k"; smaller amounts are printed as they are.
   */
  function FormatINR(amount: int): (r: string)
    ensures |r| >= 2 && r[0] == Rupee
    ensures amount < 1000 ==>
      && r[|r| - 1] != 'k'
      && ((r[1] == '-' && AllDigits(r[2..])) || AllDigits(r[1..]))
      && ParseInt(r[1..]) == amount
    // The canonical decimal form: no leading zero, and a sign only on a negative amount.
    ensures 0 <= amount < 1000 ==> AllDigits(r[1..]) && (r[1] != '0' || |r| == 2)
    ensures amount < 0 ==> r[1] == '-' && r[2] != '0'
    ensures amount >= 1000 ==>
      && |r| >= 3 && r[|r| - 1] == 'k'
      && AllDigits(r[1..|r| - 1]) && r[1] != '0'
      && var k := ParseNat(r[1..|r| - 1]);
         k * 1000 - 500 <= amount < k * 1000 + 500
  {
    if amount >= 1000 then
      var k := (amount + 500) / 1000;
      var r := [Rupee] + NatToString(k) + "k";
      assert r[1..|r| - 1] == NatToString(k);
      ParseNatToString(k);
      r
    else
      var r := [Rupee] + IntToString(amount);
      assert r[1..] == IntToString(amount);
      IntToStringRoundTrip(amount);
      r
  }

  /** Amounts below a thousand are printed in full, a negative one with its sign. */
  lemma FormatINRSmallExamples()
    ensures FormatINR(999) == "₹999"
    ensures FormatINR(-5) == "₹-5"
  {
    assert NatToString(999) == "999" by {
      assert NatToString(99) == "99" by { assert NatToString(9) == "9"; }
    }
  }

  /** From a thousand up, halves round up: 1499 shows as 1k, 1500 as 2k, 2500 as 3k. */
  lemma FormatINRThousandsExamples()
    ensures FormatINR(1000) == "₹1k"
    ensures FormatINR(1499) == "₹1k"
    ensures FormatINR(1500) == "₹2k"
    ensures FormatINR(2500) == "₹3k"
  {
  }
}
