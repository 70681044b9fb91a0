/**
 * The support chat's offline assistant (`src/frontend/src/components/support/ruleBasedAssistant.ts`):
 * an ordered table of intents, each a list of key phrases and one canned reply.
 */
module RuleBasedAssistant {
  import opened Text

  datatype Intent = Intent(keywords: seq<string>, response: string)

  const WaitForConfirmation: string := "Kindly wait for 2 hours while we confirm your payment."

  const Intents: seq<Intent> := [
    Intent(["payment not received", "add funds not received", "money not received", "funds not showing",
            "coins not added", "transaction not reflected", "payment pending", "not credited"],
           WaitForConfirmation),
    Intent(["withdrawal not received", "withdraw not received", "withdrawal pending", "money not withdrawn",
            "withdrawal not processed"],
           WaitForConfirmation),
    Intent(["how to login", "how do i login", "login help", "cannot login", "login issue", "sign in",
            "how to sign in", "google login", "microsoft login"],
           "To sign in:\n1. Go to the \"Sign in / Connection\" section from the menu\n2. Click \"Continue with Google\" or \"Continue with Microsoft\"\n3. Follow the authentication steps in the dialog\n4. Once signed in, you can connect your CTR ID"),
    Intent(["how to connect ctr", "connect ctr", "ctr connection", "register ctr", "ctr id", "access code"],
           "To connect your CTR:\n1. Sign in first\n2. Enter the shared CTR ID: 0918611\n3. Enter the shared access code: 95415 or 0918611\n4. Click \"Connect CTR\"\n\nNote: These are shared credentials for all users."),
    Intent(["how to add funds", "add money", "buy coins", "purchase coins", "how to pay", "payment method"],
           "To add funds:\n1. Go to \"Stocks & Add Funds\" from the menu\n2. Select a coin package\n3. Pay using the QR code or UPI apps\n4. Enter your transaction ID\n5. Click \"Confirm Payment\"\n\nYour coins will be added after confirmation."),
    Intent(["how to withdraw", "withdraw money", "cash out", "withdrawal process", "get money"],
           "To withdraw:\n1. Go to \"Withdrawal\" from the menu\n2. Enter the amount you want to withdraw\n3. Click \"Request Withdrawal\"\n\nNote: You must have sufficient balance. Withdrawals are processed within 2 hours."),
    Intent(["balance", "how many coins", "check balance", "my coins"],
           "You can check your coin balance in the \"Stocks & Add Funds\" section. Your current balance is displayed at the top of the page."),
    Intent(["transaction history", "my transactions", "payment history", "withdrawal history", "past transactions"],
           "You can view your transaction history:\n- Add Funds History: In the \"Stocks & Add Funds\" section\n- Withdrawal History: In the \"Withdrawal\" section\n\nBoth sections show all your past transactions."),
    Intent(["hello", "hi", "hey", "greetings"],
           "Hello! How can I help you today? I can assist with:\n- Sign in and CTR connection\n- Adding funds\n- Withdrawals\n- Transaction history\n- General questions"),
    Intent(["thank", "thanks", "appreciate"],
           "You're welcome! If you have any other questions, feel free to ask.")
  ]

  const DefaultResponse: string := "I'm here to help! I can assist you with:\n\n- Sign in and CTR connection\n- Adding funds and payment issues\n- Withdrawals\n- Transaction history\n- Account balance\n\nPlease let me know what you need help with."

  /** Whether one of the intent's phrases, lower-cased, occurs in the lower-cased message. */
  predicate Matches(intent: Intent, lowerMessage: string) {
    exists j :: 0 <= j < |intent.keywords| && Contains(lowerMessage, ToLower(intent.keywords[j]))
  }

  /** The nested loop of `getAssistantResponse` as a search over the table from position `i`. */
  function FirstMatch(intents: seq<Intent>, lowerMessage: string, default: string): (r: string)
    ensures r == default || exists i :: 0 <= i < |intents| && r == intents[i].response
    ensures r != default ==> exists i :: 0 <= i < |intents| && Matches(intents[i], lowerMessage)
    decreases |intents|
  {
    if intents == [] then default
    else if KeywordHit(intents[0].keywords, lowerMessage) then intents[0].response
    else FirstMatch(intents[1..], lowerMessage, default)
  }

  /** The inner loop: does any phrase of `keywords` occur in the message? */
  function KeywordHit(keywords: seq<string>, lowerMessage: string): (b: bool)
    ensures b <==> exists j :: 0 <= j < |keywords| && Contains(lowerMessage, ToLower(keywords[j]))
    decreases |keywords|
  {
    if keywords == [] then false
    else if Contains(lowerMessage, ToLower(keywords[0])) then true
    else KeywordHit(keywords[1..], lowerMessage)
  }

  /** `getAssistantResponse`. */
  function GetAssistantResponse(userMessage: string): (r: string)
    ensures r == DefaultResponse || exists i :: 0 <= i < |Intents| && r == Intents[i].response
  {
    FirstMatch(Intents, ToLower(userMessage), DefaultResponse)
  }

  /** First match wins: the earliest intent with an occurring phrase gives the reply. */
  lemma {:induction false} FirstMatchIsEarliest(intents: seq<Intent>, l: string, default: string, i: nat)
    requires i < |intents| && Matches(intents[i], l)
    requires forall k :: 0 <= k < i ==> !Matches(intents[k], l)
    ensures FirstMatch(intents, l, default) == intents[i].response
    decreases i
  {
    if i > 0 {
      assert !Matches(intents[0], l);
      FirstMatchIsEarliest(intents[1..], l, default, i - 1);
    }
  }

  /** When no intent matches, the default reply is given. */
  lemma {:induction false} NoMatchGivesDefault(intents: seq<Intent>, l: string, default: string)
    requires forall k :: 0 <= k < |intents| ==> !Matches(intents[k], l)
    ensures FirstMatch(intents, l, default) == default
    decreases |intents|
  {
    if intents != [] {
      assert !Matches(intents[0], l);
      NoMatchGivesDefault(intents[1..], l, default);
    }
  }

  /** The reply to a message is the reply to its lower-case form. */
  lemma CaseInsensitive(m: string)
    ensures GetAssistantResponse(m) == GetAssistantResponse(ToLower(m))
  {
    ToLowerIdempotent(m);
  }

  /** No key phrase is empty, and the phrases of the first eight intents have six characters or more. */
  lemma KeywordLengths()
    ensures forall i, j :: 0 <= i < |Intents| && 0 <= j < |Intents[i].keywords| ==> |Intents[i].keywords[j]| >= 2
    ensures forall i, j :: 0 <= i < 8 && 0 <= j < |Intents[i].keywords| ==> |Intents[i].keywords[j]| >= 6
  {
  }

  /** The empty message gets the default reply. */
  lemma EmptyMessageGetsDefault()
    ensures GetAssistantResponse("") == DefaultResponse
  {
    KeywordLengths();
    assert ToLower("") == "";
    forall k | 0 <= k < |Intents|
      ensures !Matches(Intents[k], "")
    {
      forall j | 0 <= j < |Intents[k].keywords|
        ensures !Contains("", ToLower(Intents[k].keywords[j]))
      {
        NotContainsLonger("", ToLower(Intents[k].keywords[j]));
      }
    }
    NoMatchGivesDefault(Intents, "", DefaultResponse);
  }

  /**
   * Matching is plain containment: a message of at most five characters that contains "hi"
   * (such as "this") gets the greeting, since every phrase of an earlier intent is longer.
   */
  lemma ShortMessageWithHiGetsGreeting(m: string)
    requires |m| <= 5 && Contains(ToLower(m), "hi")
    ensures GetAssistantResponse(m) == Intents[8].response
  {
    KeywordLengths();
    var l := ToLower(m);
    forall k | 0 <= k < 8
      ensures !Matches(Intents[k], l)
    {
      forall j | 0 <= j < |Intents[k].keywords|
        ensures !Contains(l, ToLower(Intents[k].keywords[j]))
      {
        NotContainsLonger(l, ToLower(Intents[k].keywords[j]));
      }
    }
    assert ToLower(Intents[8].keywords[1]) == "hi";
    assert Matches(Intents[8], l);
    FirstMatchIsEarliest(Intents, l, DefaultResponse, 8);
  }

  lemma ThisGetsGreeting()
    ensures GetAssistantResponse("this") == Intents[8].response
  {
    var l := ToLower("this");
    assert l == "this";
    assert OccursAt(l, "hi", 1);
    ContainsAt(l, "hi", 1);
    ShortMessageWithHiGetsGreeting("this");
  }

  /** Payment-not-received and withdrawal-not-received get the same text. */
  lemma NotReceivedRepliesIdentical()
    ensures Intents[0].response == Intents[1].response == WaitForConfirmation
  {
  }
}
