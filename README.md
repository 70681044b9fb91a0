# scan-earn front end: a Dafny model of its deterministic core

scan-earn is a React front end for a reward app on the Internet Computer. The app connects a CTR
code, sells coin packages for INR, lets a user withdraw funds, and gates a secure panel behind a
PLK login code. The ledger that enforces payments and withdrawals runs in a backend canister. That
canister is not part of this model. This project models the pieces the front end decides itself,
and proves what each promises:

- **IC error classifier** (`ICErrorParser`, from `parseICError`).
  - It turns a thrown value into a message string.
  - It pulls a request ID, a reject code and an error code out of the message with six regular
    expressions. These are modelled by a small leftmost, greedy matcher, which is proved to
    agree with a declarative reading of what each pattern matches.
  - It sorts the message into one of six categories, checked in a fixed order, or leaves it with
    the generic text.
- **Rule-based support assistant** (`RuleBasedAssistant`). It searches an ordered intent table
  for the first key phrase that occurs in the lower-cased message.
- **Text helpers** (`Format`): `stripNonDigits` and `formatINR` on integral amounts.
- **PLK access gate**:
  - the 20-code allowlist (`PlkAllowlist`);
  - the session-ID helpers over the browser's local storage (`PlkSession`, a class holding a
    map);
  - the login screen's three handlers (`SecureAccessGateway`, a class holding the component
    state and the session store).
- **Session user-ID builder** (`SessionUserId`). It takes the eight random bytes as a parameter.
- **Catalogues**:
  - reward tiers with a derived `coinsFor` lookup (`RewardTiers`);
  - the quick-withdrawal table, its stated fee policy and the bank-account guard of the click
    handler (`WithdrawalPanel`).
- **Flow store** (`FlowStore`): three fields, two setters and a reset.

Shared modules:

- `Wrappers` holds `Option`.
- `Text` holds:
  - ASCII digit and case helpers;
  - substring containment (`Contains`, with `ContainsIff` relating it to an explicit position);
  - decimal printing and parsing of naturals and integers, with their round trips.

Randomness is passed in as a parameter:

- `Math.random()` in `generateUniqueId` becomes a real `random` with 0 ≤ random < 1.
- The bytes that `crypto.getRandomValues` fills become a sequence of eight `Byte`s.

`localStorage` becomes a `map<string, string>`, together with a flag saying whether `window`
exists.

## Model

| member | source | states |
|---|---|---|
| Format.StripNonDigits | src/frontend/src/lib/format.ts:13-15 | the result holds only ASCII digits and is no longer than the input |
| Format.StripNonDigitsSubsequence | src/frontend/src/lib/format.ts:14 | the result keeps the input's characters in order (it is a subsequence of the input) |
| Format.StripNonDigitsCounts | src/frontend/src/lib/format.ts:14 | each digit occurs in the result exactly as often as in the input; every non-digit occurs zero times |
| Format.StripNonDigitsFixpoint | src/frontend/src/lib/format.ts:14 | a string is returned unchanged if and only if it is all digits |
| Format.StripNonDigitsIdempotent | src/frontend/src/lib/format.ts:14 | stripping twice is stripping once |
| Format.StripNonDigitsConcat | src/frontend/src/lib/format.ts:14 | stripping a concatenation is the concatenation of the stripped parts (`/g` removes every match) |
| Format.FormatINR | src/frontend/src/lib/format.ts:1-6 | "₹" first. Below 1000: no "k", the rest is the amount's canonical decimal (no leading zero, a minus sign only for a negative amount) and parses back to the amount. From 1000 up: digits without a leading zero, then "k", and the number k shown satisfies 1000k − 500 ≤ amount < 1000k + 500 (nearest thousand, halves up) |
| Format.FormatINRSmallExamples | src/frontend/src/lib/format.ts:5 | 999 → "₹999", −5 → "₹-5" |
| Format.FormatINRThousandsExamples | src/frontend/src/lib/format.ts:2-4 | 1000 → "₹1k", 1499 → "₹1k", 1500 → "₹2k", 2500 → "₹3k" |
| ICErrorParser.ParseICError | src/frontend/src/lib/icErrorParser.ts:54-206 | a falsy input gives the default record with no details. Otherwise details are present and their raw message is the extracted message. Out of cycles implies stopped; at most one flag is set apart from that pair. No flag is set exactly when the category is unclassified, and then the default title and message remain |
| ICErrorParser.Verdict | src/frontend/src/lib/icErrorParser.ts:117-205 | the record of each category carries the given details. Invalid ID sets only the invalid-ID flag; out of cycles sets the out-of-cycles and stopped flags; stopped sets only the stopped flag; unreachable sets only the backend-unavailable flag; API mismatch and auth each set only their own flag. Each of these six shows its own title and message. Only the unclassified category sets no flag, and it keeps the default texts |
| ICErrorParser.IsFalsy | src/frontend/src/lib/icErrorParser.ts:68-70 | the falsy values are undefined, null, false, 0 and ""; `AsString` proves each of them prints as one of "undefined", "null", "false", "0", "" |
| ICErrorParser.AsString | src/frontend/src/lib/icErrorParser.ts:76-85 | `String(value)`: undefined prints as "undefined" and null as "null"; a string is itself; a boolean prints as "true" exactly when it is true. An integer prints as its canonical decimal, a signed digit string that parses back to it. An `Error` prints as its message when the name is empty, as its name when the message is empty, and otherwise as name, ": ", message. Other objects print as "[object Object]" |
| ICErrorParser.ErrorMessage | src/frontend/src/lib/icErrorParser.ts:76-85 | an `Error` gives its message, an object with a `message` gives `String` of that message, and anything else gives `String` of the value itself |
| ICErrorParser.ExtractDetails | src/frontend/src/lib/icErrorParser.ts:88-115 | the raw message is stored verbatim. The request ID and the error code are the primary-or-fallback capture. A reject code is present exactly when one of the two reject-code patterns matched, and it is then the decimal value of the captured digits |
| ICErrorParser.ExtractDetailsSpec | src/frontend/src/lib/icErrorParser.ts:88-115 | stated against the declarative reading of the regular expressions: each field holds a capture exactly when that capture is the leftmost match of the primary pattern, or, with no primary match anywhere, of the fallback. A field is absent exactly when neither pattern matches anywhere |
| ICErrorParser.MatchEither | src/frontend/src/lib/icErrorParser.ts:91-92 | a primary-or-fallback match captures a non-empty run of the capture class (hex-or-dash, decimal, letter-or-underscore) |
| ICErrorParser.MatchEitherSpec | src/frontend/src/lib/icErrorParser.ts:91-92 | the first match of `p`, or failing that of `q`: the result is a capture exactly when it is the leftmost match of `p`, or `p` matches nowhere and it is the leftmost match of `q`; the result is absent exactly when neither matches anywhere |
| ICErrorParser.Search | src/frontend/src/lib/icErrorParser.ts:91-106 | the leftmost match, when there is one, captures a non-empty run of the capture class |
| ICErrorParser.SearchSpec | src/frontend/src/lib/icErrorParser.ts:91-106 | `String.prototype.match` without `/g`: the result is a capture exactly when a match starts at some position with that capture and no match starts earlier; the result is absent exactly when no match starts anywhere |
| ICErrorParser.MatchFromSpec | src/frontend/src/lib/icErrorParser.ts:91-106 | the matcher run at one position gives a capture exactly when the pattern matches there with that capture: the literal ignoring ASCII case, greedy separators (at least the pattern's minimum), then a greedy non-empty capture run |
| ICErrorParser.MatchTailSpec | src/frontend/src/lib/icErrorParser.ts:91-106 | after the literal, the match gives a capture exactly when a separator run of at least the minimum length is followed by that capture, a maximal non-empty run of the capture class |
| ICErrorParser.RunEndIsTheRun | src/frontend/src/lib/icErrorParser.ts:91-106 | a stretch of class characters that cannot be extended is exactly the stretch the greedy quantifier takes |
| ICErrorParser.PatternsWellFormed | src/frontend/src/lib/icErrorParser.ts:91-106 | each of the six patterns is well formed: the word after the optional `_` or `-` ("id", "code") does not itself begin with `_` or `-`, so the joined and plain readings never both apply |
| ICErrorParser.JoinerExcludesPlainTail | src/frontend/src/lib/icErrorParser.ts:92 | at one position, `[_-]?` either takes a joiner or the word follows at once, never both, so the greedy choice needs no backtracking |
| ICErrorParser.SeparatorsAndCapturesDisjoint | src/frontend/src/lib/icErrorParser.ts:91-106 | no separator character (`\s`, `["\s:]`) is also a capture character, so a greedy separator run never takes capture characters |
| ICErrorParser.Classify | src/frontend/src/lib/icErrorParser.ts:119-205 | the chain of keyword tests on the lower-cased message; `ClassificationOrder` states which category each outcome of the tests gives |
| ICErrorParser.ClassificationOrder | src/frontend/src/lib/icErrorParser.ts:119-205 | each category is chosen exactly when its keyword test holds and every earlier test fails: invalid ID, out of cycles, stopped, unreachable, API mismatch, auth. The message is unclassified exactly when all six tests fail |
| ICErrorParser.InvalidIdWins | src/frontend/src/lib/icErrorParser.ts:119-133 | when the invalid-ID test holds, the result is the invalid-ID record with exactly one flag, whatever else the message says |
| ICErrorParser.InvalidIdBeatsTimeout | src/frontend/src/lib/icErrorParser.ts:124-167 | "Invalid principal: request timeout" is an invalid canister ID, not unreachable |
| ICErrorParser.CaseInsensitive | src/frontend/src/lib/icErrorParser.ts:117 | messages with the same lower-case form get the same title, message and flags |
| ICErrorParser.LowerCaseFormSameVerdict | src/frontend/src/lib/icErrorParser.ts:117 | a message and its lower-case form get the same title, message and flags |
| ICErrorParser.NoKeywordUnclassified | src/frontend/src/lib/icErrorParser.ts:119-205 | a lower-cased message containing none of the 38 phrases falls through every test |
| ICErrorParser.NoKeywordKeepsDefault | src/frontend/src/lib/icErrorParser.ts:204-205 | such a message keeps the default title and message, with every flag false |
| ICErrorParser.HelpersFollowCategory | src/frontend/src/lib/icErrorParser.ts:26-49 | `isBackendUnavailable` holds exactly for the out-of-cycles, stopped and unreachable categories; the other three helpers each hold exactly for their category |
| ICErrorParser.IsBackendUnavailable | src/frontend/src/lib/icErrorParser.ts:26-28 | true when the unavailable, stopped or out-of-cycles flag is set; `HelpersFollowCategory` proves this is exactly the out-of-cycles, stopped and unreachable categories |
| ICErrorParser.IsApiMismatch | src/frontend/src/lib/icErrorParser.ts:33-35 | the API-mismatch flag; `HelpersFollowCategory` proves it holds exactly for that category |
| ICErrorParser.IsAuthError | src/frontend/src/lib/icErrorParser.ts:40-42 | the auth flag; `HelpersFollowCategory` proves it holds exactly for that category |
| ICErrorParser.IsInvalidCanisterId | src/frontend/src/lib/icErrorParser.ts:47-49 | the invalid-ID flag; `HelpersFollowCategory` proves it holds exactly for that category |
| ICErrorParser.RejectCodeFromPrimary | src/frontend/src/lib/icErrorParser.ts:98-102 | when `/Reject code:\s*(\d+)/i` captures some digits, the parsed details carry the decimal value of those digits, whatever the fallback would say |
| ICErrorParser.RejectCodeFirstOccurrence | src/frontend/src/lib/icErrorParser.ts:98-102 | in a message of some text with no earlier "Reject code:" match, then "Reject code: " and the digits of n, then a rest that does not begin with a digit, the reject code is n (for example "Reject code: 503") |
| ICErrorParser.ParseICErrorIsVerdict | src/frontend/src/lib/icErrorParser.ts:54-205 | a truthy input gives the record of its category carrying the details extracted from its message |
| ICErrorParser.ParseICErrorReports | src/frontend/src/lib/icErrorParser.ts:54-205 | for every input, falsy ones counted as unclassified: each flag is set exactly for the categories that raise it, and the title and message are those of the input's category, which is what the callers at `useQueries.ts:40-41` show |
| RuleBasedAssistant.GetAssistantResponse | src/frontend/src/components/support/ruleBasedAssistant.ts:125-139 | the reply is the default text or one intent's response, never anything else |
| RuleBasedAssistant.FirstMatch | src/frontend/src/components/support/ruleBasedAssistant.ts:129-135 | the result is the default or an intent's response, and a non-default result comes from an intent that matches |
| RuleBasedAssistant.KeywordHit | src/frontend/src/components/support/ruleBasedAssistant.ts:130-134 | true if and only if some lower-cased phrase of the list occurs in the message |
| RuleBasedAssistant.FirstMatchIsEarliest | src/frontend/src/components/support/ruleBasedAssistant.ts:129-135 | if intent i matches and no earlier intent does, intent i's response is returned |
| RuleBasedAssistant.NoMatchGivesDefault | src/frontend/src/components/support/ruleBasedAssistant.ts:137-138 | if no intent matches, the default text is returned |
| RuleBasedAssistant.CaseInsensitive | src/frontend/src/components/support/ruleBasedAssistant.ts:126-131 | a message and its lower-case form get the same reply |
| RuleBasedAssistant.KeywordLengths | src/frontend/src/components/support/ruleBasedAssistant.ts:11-120 | no key phrase is empty, and every phrase of the first eight intents has at least six characters |
| RuleBasedAssistant.EmptyMessageGetsDefault | src/frontend/src/components/support/ruleBasedAssistant.ts:138 | the empty message gets the default text |
| RuleBasedAssistant.ShortMessageWithHiGetsGreeting | src/frontend/src/components/support/ruleBasedAssistant.ts:111 | a message of at most five characters containing "hi" gets the greeting, since matching is plain containment |
| RuleBasedAssistant.ThisGetsGreeting | src/frontend/src/components/support/ruleBasedAssistant.ts:111 | "this" gets the greeting reply |
| RuleBasedAssistant.NotReceivedRepliesIdentical | src/frontend/src/components/support/ruleBasedAssistant.ts:24-35 | the payment-not-received and withdrawal-not-received intents reply with the same text |
| PlkSession.IsValidSession | src/frontend/src/lib/plkSession.ts:33-36 | null or empty is invalid; otherwise the whole string must be eight digits. `IsValidSessionIff` states this as an if-and-only-if |
| PlkSession.IsValidSessionIff | src/frontend/src/lib/plkSession.ts:33-36 | valid exactly for a present string of eight ASCII digits; null and "" are invalid |
| PlkSession.GenerateUniqueId | src/frontend/src/lib/plkSession.ts:6-11 | the ID is all digits, parses to a number in [10000000, 99999999], and passes the session check |
| PlkSession.GenerateUniqueIdBounds | src/frontend/src/lib/plkSession.ts:7-10 | the draw 0 gives "10000000" and a draw just below 1 gives "99999999" |
| PlkSession.SessionStore.constructor | src/frontend/src/lib/plkSession.ts:16-28 | the store starts from the given window flag and the given `localStorage` contents |
| PlkSession.SessionStore.SetSession | src/frontend/src/lib/plkSession.ts:16-20 | with a window, the only change is that the session key now maps to the ID, and reading gives the ID; without a window nothing changes |
| PlkSession.SessionStore.GetSession | src/frontend/src/lib/plkSession.ts:25-28 | null without a window or without an entry; otherwise the stored value |
| PlkSession.SessionStore.ClearSession | src/frontend/src/lib/plkSession.ts:41-45 | removes the session key and no other entry; afterwards no session is found and none is valid |
| PlkSession.SessionStore.HasValidSession | src/frontend/src/lib/plkSession.ts:50-53 | true if and only if a window exists and the stored value is eight digits |
| PlkSession.SetThenGet | src/frontend/src/lib/plkSession.ts:16-28 | after storing a generated ID, reading returns it and the session is valid; every other key keeps its value |
| PlkSession.ClearThenCheck | src/frontend/src/lib/plkSession.ts:41-53 | after clearing, reading returns null and the session is not valid |
| PlkAllowlist.AllowlistHasTwentyCodes | src/frontend/src/lib/plkAllowlist.ts:1-23 | the allowlist holds exactly 20 distinct codes |
| PlkAllowlist.AuthorizedCodesAreSixDigits | src/frontend/src/lib/plkAllowlist.ts:3-22 | every listed code is six ASCII digits |
| PlkAllowlist.IsAuthorizedPlk | src/frontend/src/lib/plkAllowlist.ts:28-30 | membership of the code, verbatim, in the allowlist; `AuthorizedImpliesSixDigits` and `NoNormalisation` state what that admits |
| PlkAllowlist.AuthorizedImpliesSixDigits | src/frontend/src/lib/plkAllowlist.ts:28-30 | a string that is not six ASCII digits is refused |
| PlkAllowlist.NoNormalisation | src/frontend/src/lib/plkAllowlist.ts:28-30 | a listed code is accepted verbatim, and refused with a blank before or after it, when shortened, or when empty |
| SecureAccessGateway.SanitizeInput | src/frontend/src/pages/SecureAccessGateway.tsx:20-24 | the kept code is the first min(#digits, 6) digits of the input: digits only, at most six, a subsequence of the input and a prefix of its stripped form |
| SecureAccessGateway.AuthorizedCodeSurvivesInput | src/frontend/src/pages/SecureAccessGateway.tsx:20-24 | typing a listed code keeps it unchanged |
| SecureAccessGateway.Gateway.constructor | src/frontend/src/pages/SecureAccessGateway.tsx:16-18 | empty code, no error, not loading |
| SecureAccessGateway.Gateway.HandleInputChange | src/frontend/src/pages/SecureAccessGateway.tsx:20-27 | the code becomes the sanitised input, any error is cleared, and nothing else changes |
| SecureAccessGateway.Gateway.HandleLogin | src/frontend/src/pages/SecureAccessGateway.tsx:29-56 | a code that is not six long sets the incomplete-code error. A six-digit unlisted code sets the invalid-code error. Neither writes a session nor calls `onLoginSuccess`. A listed code clears the error, writes a valid generated ID under the session key (and nothing else) and calls `onLoginSuccess` once. Loading is off afterwards on every path |
| SecureAccessGateway.Gateway.HandleKeyPress | src/frontend/src/pages/SecureAccessGateway.tsx:65-69 | Enter with six digits behaves as login; any other key, or a shorter code, changes nothing |
| SecureAccessGateway.TypeCodeAndLogin | src/frontend/src/pages/SecureAccessGateway.tsx:20-56 | typing a listed code and logging in leaves a valid session in storage and one more success call |
| SessionUserId.AlphabetShape | src/frontend/src/lib/sessionUserId.ts:6 | the alphabet has 36 characters, A–Z then 0–9, each at its own index |
| SessionUserId.GenerateSessionUserId | src/frontend/src/lib/sessionUserId.ts:5-15 | length 13 and "USER-" first. The last eight characters are upper-case ASCII letters or digits. Character i reads back as byte i modulo 36 |
| SessionUserId.SameIdIffSameResidues | src/frontend/src/lib/sessionUserId.ts:7-12 | two byte arrays give the same ID if and only if they agree modulo 36 at every position |
| SessionUserId.SessionUserIdExample | src/frontend/src/lib/sessionUserId.ts:5-15 | bytes [0, 25, 26, 35, 36, 255, 100, 7] give "USER-AZ09AD2H" |
| RewardTiers.TiersWellOrdered | src/frontend/src/config/rewardTiers.ts:8-15 | INR and coin values are positive and strictly increasing |
| RewardTiers.Lookup | src/frontend/src/config/rewardTiers.ts:8-15 | a result exists exactly when some tier has the INR amount, and the pair found is in the table |
| RewardTiers.CoinsFor | src/frontend/src/config/rewardTiers.ts:8-15 | the same for the catalogue itself |
| RewardTiers.CoinsForIsTable | src/frontend/src/config/rewardTiers.ts:8-15 | `coinsFor(inr) = coins` if and only if (inr, coins) is one of the six listed pairs |
| RewardTiers.ListedTierExamples | src/frontend/src/config/rewardTiers.ts:9-14 | 10 → 15, 100 → 99, 1000 → 1985 |
| RewardTiers.UnlistedAmountHasNoTier | src/frontend/src/config/rewardTiers.ts:8-15 | an INR amount not in the table has no tier |
| RewardTiers.TwoHundredHasNoTier | src/frontend/src/config/rewardTiers.ts:8-15 | 200 has no tier |
| RewardTiers.NotProportional | src/frontend/src/config/rewardTiers.ts:11-12 | no single rate turns every INR amount into its coins (100 → 99 but 150 → 240) |
| WithdrawalPanel.StatedFee | src/frontend/src/components/scan-earn/WithdrawalPanel.tsx:93-97 | the fee is 0 or 9, and 9 exactly for amounts from 100 to 200 that are not on the no-fee list |
| WithdrawalPanel.FeeLabel | src/frontend/src/components/scan-earn/WithdrawalPanel.tsx:77 | the label is "No charge" if and only if the fee is 0; any other fee reads "₹", the fee's decimal form, then " fee" |
| WithdrawalPanel.FeeLabelShowsFee | src/frontend/src/components/scan-earn/WithdrawalPanel.tsx:77 | for a fee other than 0, the text between "₹" and " fee" is a signed decimal that parses back to the fee |
| WithdrawalPanel.QuickAmountsMatchPolicy | src/frontend/src/components/scan-earn/WithdrawalPanel.tsx:11-18 | six strictly increasing (so distinct) amounts, each with fee 0 agreeing with the stated rule. The first equals the ₹50 minimum and none is below it. The amounts form exactly the stated no-fee list |
| WithdrawalPanel.QuickAmountsShowNoCharge | src/frontend/src/components/scan-earn/WithdrawalPanel.tsx:77 | every quick-amount button reads "No charge" |
| WithdrawalPanel.StatedFeeExamples | src/frontend/src/components/scan-earn/WithdrawalPanel.tsx:97 | 100, 101, 150, 199 and 200 cost 9; 109, 209, 99, 201 and 10000 cost nothing |
| WithdrawalPanel.LabelsShowAmounts | src/frontend/src/components/scan-earn/WithdrawalPanel.tsx:11-18 | each label is "₹" and the amount, with whole thousands written as "K" |
| WithdrawalPanel.Panel.constructor | src/frontend/src/components/scan-earn/WithdrawalPanel.tsx:20-21 | the panel starts with the given bank-account flag, no toasts and no withdrawal requested |
| WithdrawalPanel.Panel.HandleWithdrawal | src/frontend/src/components/scan-earn/WithdrawalPanel.tsx:23-36 | without a bank account: one error toast and no withdrawal requested. Otherwise the amount is requested once, then a success toast, or an error toast with the error's message (or the fallback text when it is empty) |
| FlowStore.Store.constructor | src/frontend/src/state/flowStore.ts:13-15 | not connected, empty CTR ID, no tier |
| FlowStore.Store.SetCtrConnected | src/frontend/src/state/flowStore.ts:16-17 | both CTR fields are set, an omitted ID becomes "", and the tier is unchanged |
| FlowStore.Store.SetSelectedTier | src/frontend/src/state/flowStore.ts:18 | only the tier changes |
| FlowStore.Store.Reset | src/frontend/src/state/flowStore.ts:19 | the initial state from any state, and a reset of the initial state changes nothing (idempotent) |

## Left out

- Backend ledger:
  - Not modelled: approval of payments and withdrawals, no double credit, balance conservation,
    transaction-ID idempotency, the two-per-day withdrawal cap, and blocked users.
  - The canister that enforces these is not part of this model. `src/frontend/src/backend.d.ts`
    holds only types and `src/frontend/src/hooks/useQueries.ts` only call wrappers.
  - The panel's text about two requests a day is not modelled either.
- Arity and field-name drift of `addFunds` is not modelled:
  - `backend.d.ts:65` declares four arguments.
  - `useQueries.ts:69` passes two.
  - `AddFundsModal.tsx:68-71` sends `tierCoins` while the hook reads `coins`.
  - The model makes no claim about these calls.
- The withdrawal panel's wiring is not modelled:
  - `WithdrawalPanel.tsx:4` imports `useRequestWithdrawal`, which `useQueries.ts` does not export.
    Its withdrawal hook is `useWithdraw` (`useQueries.ts:83`), taking a transaction ID and a
    `bigint` amount.
  - `WithdrawalSection.tsx:15` and `Wallet.tsx:47` render `<WithdrawalPanel />` without
    `hasBankAccount`. As written, every click would take the no-bank-account branch.
  - The model takes `hasBankAccount` and the mutation's outcome as given.
- React rendering, routing and the other screens are not modelled. This covers AdminPanelSection,
  LandingSection, HamburgerMenu, Hero, Wallet, the history lists and sections, App and
  StocksHomePage.
- `setActiveSection` is used by LandingSection but not defined in `flowStore.ts`. Only the three
  declared fields and their three actions are modelled.
- Not modelled, because each is I/O, timing or floating point:
  - camera and pixel heuristics;
  - simulated trading series and animated counters;
  - backend reachability probes, actor retries and initialisation timeouts;
  - the polling in RequirePlkSession;
  - CustomerSupportSection;
  - the clipboard and navigation of AddFundsModal.
- CtrConnect and PhoneConnect are not modelled: the validators they call are not defined in the
  files of this model.
- `formatCoins` is not modelled: it delegates to the locale library (`toLocaleString('en-IN')`).
- `upi.ts`, `whatsapp.ts` and `supportEmail.ts` are not modelled: they are URL templates over
  `encodeURIComponent` and `window.open`.
- Text.ToLower: ASCII-only case folding. JavaScript's `toLowerCase` also maps non-ASCII letters
  (for example "İ"). Messages with such letters may classify differently in the source.
- ICErrorParser.AsString covers undefined, null, booleans, strings, integers of magnitude at
  most 2^53, `Error` instances (printed as `Error.prototype.toString` prints them), objects with
  a `message`, and ordinary objects that keep the default `toString`.
  - Not covered: NaN, −0, infinities, bigint and fractional numbers.
  - Not covered: integers beyond 2^53 in magnitude. There not every integer is a JavaScript
    number, and `String` prints the shortest digits that round-trip (`String(2**60)` is
    "1152921504606847000"), so the model's exact digits differ. From 10^21 up `String` prints
    exponent form.
  - Not covered: arrays (`String` joins their elements with ","), functions, `Date`s, symbols,
    and objects with their own `toString`; none of these prints as "[object Object]". A thrown
    array such as `["timeout"]` is classified by its joined text in the source.
  - A non-string `message` is printed by the same `String` conversion, within the same cover.
- ICErrorParser.ExtractDetails does not model `parseInt` precision loss for reject codes above
  2^53: the model keeps the exact value.
- The regular-expression semantics are modelled for the six patterns of `parseICError` only.
- ICErrorParser.RejectCodeFirstOccurrence needs that no earlier "Reject code:" match precedes the
  phrase, because the first match is the one `match` returns.
- Format.FormatINR takes integer amounts of magnitude at most 2^53; there it agrees with the
  source's double arithmetic. Not modelled:
  - fractional amounts;
  - amounts beyond 2^53 in magnitude. There not every integer is a JavaScript number, `String`
    prints rounded digits, and `amount / 1000` is rounded before `toFixed`. For example, the
    source shows 70368744177664496 as "₹70368744177665k", while the model shows
    "₹70368744177664k";
  - the exponent form `String` prints from −10^21 down and `toFixed` prints from 10^24 up.
- PlkSession.GenerateUniqueId computes in exact real arithmetic. It does not model the
  floating-point rounding of `Math.random() * 90000000`.
- SecureAccessGateway.Gateway.HandleLogin:
  - runs as one step; the 300 ms pause and any events during it are not modelled;
  - `onLoginSuccess` is modelled as a call counter;
  - treats `localStorage.setItem` as never throwing. In the source a throw (storage disabled or
    full) leaves loading on and skips `onLoginSuccess` (`SecureAccessGateway.tsx:51-55`).
- PlkSession.SessionStore.SetSession and GetSession likewise treat storage as never throwing.
- `handleRequestCode` (a `mailto:` redirect) is not modelled.
- WithdrawalPanel.StatedFee:
  - The panel says "₹9 fee for amounts between ₹100-₹200 (excluding ₹109, ₹209)". The model
    reads this as 100 to 200 inclusive. The exclusive reading "strictly between 100 and 200"
    differs only at 100 and 200.
  - The panel states no fee for other amounts, and the model charges none.
  - The table's own `fee` column (all zero) is what the buttons display.
- WithdrawalPanel.Panel.HandleWithdrawal:
  - does not model the backend's answer, which is a parameter;
  - does not model the button's `disabled` state while a request is pending.
