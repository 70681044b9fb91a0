/**
 * The quick-withdrawal panel (`src/frontend/src/components/scan-earn/WithdrawalPanel.tsx`):
 * the table of one-tap amounts, the fee policy printed beside it, and the click handler
 * that refuses to ask for a withdrawal before a bank account is on file.
 */
module WithdrawalPanel {
  import opened Text

  datatype QuickAmount = QuickAmount(amount: int, caption: string, fee: int)

  const WithdrawalAmounts: seq<QuickAmount> := [
    QuickAmount(50, "₹50", 0),
    QuickAmount(109, "₹109", 0),
    QuickAmount(209, "₹209", 0),
    QuickAmount(500, "₹500", 0),
    QuickAmount(1000, "₹1K", 0),
    QuickAmount(2000, "₹2K", 0)
  ]

  // The policy as the panel states it in words.
  const MinimumWithdrawal: int := 50
  const NoFeeAmounts: set<int> := {50, 109, 209, 500, 1000, 2000}
  const BandFee: int := 9
  const BandLow: int := 100
  const BandHigh: int := 200

  /**
   * The written fee rule: no fee on the listed amounts; 9 on amounts from 100 to 200
   * (both ends included); nothing is said about other amounts, which are taken as free.
   */
  function StatedFee(amount: int): (fee: int)
    ensures fee == 0 || fee == BandFee
    ensures fee == BandFee <==> amount !in NoFeeAmounts && BandLow <= amount <= BandHigh
  {
    if amount in NoFeeAmounts then 0
    else if BandLow <= amount <= BandHigh then BandFee
    else 0
  }

  /** The text under each button: "No charge", or the fee in rupees. */
  function FeeLabel(fee: int): (caption: string)
    ensures caption == "No charge" <==> fee == 0
    ensures fee != 0 ==> caption == "₹" + IntToString(fee) + " fee"
  {
    if fee == 0 then "No charge"
    else
      var caption := "₹" + IntToString(fee) + " fee";
      assert caption[0] != "No charge"[0];
      caption
  }

  /** The quick amounts, their order, and their agreement with the stated policy. */
  lemma QuickAmountsMatchPolicy()
    ensures |WithdrawalAmounts| == 6
    ensures forall i, j :: 0 <= i < j < |WithdrawalAmounts| ==>
      WithdrawalAmounts[i].amount < WithdrawalAmounts[j].amount
    ensures forall i :: 0 <= i < |WithdrawalAmounts| ==>
      WithdrawalAmounts[i].fee == 0 && StatedFee(WithdrawalAmounts[i].amount) == WithdrawalAmounts[i].fee
    ensures WithdrawalAmounts[0].amount == MinimumWithdrawal
    ensures forall i :: 0 <= i < |WithdrawalAmounts| ==> WithdrawalAmounts[i].amount >= MinimumWithdrawal
    ensures (set q | q in WithdrawalAmounts :: q.amount) == NoFeeAmounts
  {
    var amounts := set q | q in WithdrawalAmounts :: q.amount;
    assert WithdrawalAmounts[0] in WithdrawalAmounts && WithdrawalAmounts[1] in WithdrawalAmounts;
    assert WithdrawalAmounts[2] in WithdrawalAmounts && WithdrawalAmounts[3] in WithdrawalAmounts;
    assert WithdrawalAmounts[4] in WithdrawalAmounts && WithdrawalAmounts[5] in WithdrawalAmounts;
    assert amounts == NoFeeAmounts;
  }

  /** Every button reads "No charge". */
  lemma QuickAmountsShowNoCharge()
    ensures forall i :: 0 <= i < |WithdrawalAmounts| ==> FeeLabel(WithdrawalAmounts[i].fee) == "No charge"
  {
    QuickAmountsMatchPolicy();
  }

  /** The band fee, at the band's edges and inside it; other amounts are free. */
  lemma StatedFeeExamples()
    ensures StatedFee(100) == 9 && StatedFee(101) == 9 && StatedFee(150) == 9
    ensures StatedFee(199) == 9 && StatedFee(200) == 9
    ensures StatedFee(109) == 0 && StatedFee(209) == 0 && StatedFee(99) == 0 && StatedFee(201) == 0
    ensures StatedFee(10000) == 0
  {
  }

  /** A button label: the amount in rupees, with thousands written as "K". */
  lemma LabelsShowAmounts()
    ensures forall i :: 0 <= i < |WithdrawalAmounts| && WithdrawalAmounts[i].amount < 1000 ==>
      WithdrawalAmounts[i].caption == "₹" + NatToString(WithdrawalAmounts[i].amount)
    ensures forall i :: 0 <= i < |WithdrawalAmounts| && WithdrawalAmounts[i].amount >= 1000 ==>
      WithdrawalAmounts[i].amount % 1000 == 0 &&
      WithdrawalAmounts[i].caption == "₹" + NatToString(WithdrawalAmounts[i].amount / 1000) + "K"
  {
    assert NatToString(50) == "50" by { assert NatToString(5) == "5"; }
    assert NatToString(109) == "109" by { assert NatToString(10) == "10"; }
    assert NatToString(209) == "209" by { assert NatToString(20) == "20"; }
    assert NatToString(500) == "500" by { assert NatToString(50) == "50"; }
  }

  /** A fee caption reads back as the fee it shows. */
  lemma FeeLabelShowsFee(fee: int)
    requires fee != 0
    ensures var caption := FeeLabel(fee);
      && |caption| >= 6 && caption[0] == '₹' && caption[|caption| - 4..] == " fee"
      && var shown := caption[1..|caption| - 4];
         |shown| >= 1 && ((shown[0] == '-' && AllDigits(shown[1..])) || AllDigits(shown))
         && ParseInt(shown) == fee
  {
    var caption := FeeLabel(fee);
    assert caption[1..|caption| - 4] == IntToString(fee);
    IntToStringRoundTrip(fee);
  }

  datatype Toast = SuccessToast(text: string) | ErrorToast(text: string)

  /**
   * How the withdrawal mutation settles: resolved, or rejected with an error's `message`.
   * `Rejected("")` also stands for a rejection without a truthy `message`, such as a thrown
   * string or `undefined`: `error?.message ||` sends those to the fallback text as well.
   */
  datatype MutationOutcome = Resolved | Rejected(message: string)

  const NoBankAccountMessage: string := "Please add a bank account first"
  const FallbackFailureMessage: string := "Failed to submit withdrawal request"

  function SuccessMessage(amount: int): string {
    "Withdrawal request for ₹" + IntToString(amount) + " submitted successfully!"
  }

  /** The panel's effects: the toasts shown and the amounts sent to the withdrawal mutation. */
  class Panel {
    const hasBankAccount: bool
    var toasts: seq<Toast>
    var requested: seq<int>

    constructor (hasBankAccount: bool)
      ensures this.hasBankAccount == hasBankAccount && toasts == [] && requested == []
    {
      this.hasBankAccount := hasBankAccount;
      toasts := [];
      requested := [];
    }

    /**
     * `handleWithdrawal`. `outcome` is how the backend answers, consulted only when the
     * mutation is called.
     */
    method HandleWithdrawal(amount: int, outcome: MutationOutcome)
      modifies this
      ensures !hasBankAccount ==> requested == old(requested) && toasts == old(toasts) + [ErrorToast(NoBankAccountMessage)]
      ensures hasBankAccount ==> requested == old(requested) + [amount]
      ensures hasBankAccount && outcome.Resolved? ==> toasts == old(toasts) + [SuccessToast(SuccessMessage(amount))]
      ensures hasBankAccount && outcome.Rejected? ==>
        toasts == old(toasts) + [ErrorToast(if outcome.message != "" then outcome.message else FallbackFailureMessage)]
    {
      if !hasBankAccount {
        toasts := toasts + [ErrorToast(NoBankAccountMessage)];
        return;
      }
      requested := requested + [amount];
      match outcome
      case Resolved =>
        toasts := toasts + [SuccessToast(SuccessMessage(amount))];
      case Rejected(message) =>
        var errorMessage := if message != "" then message else FallbackFailureMessage;
        toasts := toasts + [ErrorToast(errorMessage)];
    }
  }
}
