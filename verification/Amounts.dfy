/** The gross amounts annotated on operations for display: amount, fee and total amount. */
module Amounts {
  import opened Common
  import opened Accounting
  import opened Postings
  import opened LedgerModel

  function Positive(x: int): int { if x > 0 then x else 0 }

  function Abs(x: int): int { if x < 0 then -x else x }

  /** The sum of the positive legs. */
  function Credits(legs: seq<Leg>): int {
    if legs == [] then 0 else Credits(legs[..|legs| - 1]) + Positive(legs[|legs| - 1].amount)
  }

  /** The sum of the negative legs. */
  function Debits(legs: seq<Leg>): int {
    if legs == [] then 0 else Debits(legs[..|legs| - 1]) - Positive(-legs[|legs| - 1].amount)
  }

  /** The sum of the legs on the given accounts. */
  function SumOn(legs: seq<Leg>, accounts: set<Account>): int {
    if legs == [] then 0
    else SumOn(legs[..|legs| - 1], accounts)
         + if legs[|legs| - 1].account in accounts then legs[|legs| - 1].amount else 0
  }

  /** `with_amount`: undefined when the operation has no leg of the sign it sums. */
  function WithAmount(op: Op): Option<int> {
    match op.kind
    case Deposit => if exists leg :: leg in op.legs && leg.amount > 0 then Some(Abs(Credits(op.legs))) else None
    case Withdrawal => if exists leg :: leg in op.legs && leg.amount < 0 then Some(Abs(Debits(op.legs))) else None
    case Refund => if exists leg :: leg in op.legs && leg.amount < 0 then Some(Abs(Debits(op.legs))) else None
    case _ => None
  }

  /** `with_fee`: what was posted to user fee accounts. */
  function WithFee(op: Op, feeAccounts: set<Account>): Option<int> {
    if op.kind == Deposit || op.kind == Withdrawal then Some(Abs(SumOn(op.legs, feeAccounts))) else None
  }

  function WithTotalAmount(op: Op, feeAccounts: set<Account>): Option<int> {
    var amount, fee := WithAmount(op), WithFee(op, feeAccounts);
    if amount.None? || fee.None? then None
    else if op.kind == Deposit then Some(amount.value + fee.value)
    else if op.kind == Withdrawal then Some(amount.value - fee.value)
    else None
  }

  lemma {:induction false} SumsConcat(front: seq<Leg>, back: seq<Leg>, accounts: set<Account>)
    ensures Credits(front + back) == Credits(front) + Credits(back)
    ensures Debits(front + back) == Debits(front) + Debits(back)
    ensures SumOn(front + back, accounts) == SumOn(front, accounts) + SumOn(back, accounts)
  {
    if back == [] {
      assert front + back == front;
    } else {
      assert (front + back)[..|front + back| - 1] == front + back[..|back| - 1];
      SumsConcat(front, back[..|back| - 1], accounts);
    }
  }

  lemma TransferAmounts(from: Account, to: Account, amount: int, accounts: set<Account>)
    ensures Credits(Transfer(from, to, amount)) == Abs(amount) == -Debits(Transfer(from, to, amount))
    ensures SumOn(Transfer(from, to, amount), accounts)
         == (if to in accounts then amount else 0) - (if from in accounts then amount else 0)
  {
    assert Transfer(from, to, amount) == [Leg(from, -amount)] + [Leg(to, amount)];
    SumsConcat([Leg(from, -amount)], [Leg(to, amount)], accounts);
  }

  lemma OptionalAmounts(from: Account, to: Option<Account>, amount: int, accounts: set<Account>)
    requires to.None? ==> amount == 0
    ensures Credits(OptionalTransfer(from, to, amount)) == Abs(amount) == -Debits(OptionalTransfer(from, to, amount))
    ensures SumOn(OptionalTransfer(from, to, amount), accounts)
         == (if to.Some? && to.value in accounts then amount else 0) - (if from in accounts then amount else 0)
  {
    if to.Some? {
      TransferAmounts(from, to.value, amount, accounts);
    }
  }

  lemma {:induction false} CreditsAndDebits(legs: seq<Leg>, asset: Asset)
    requires forall leg :: leg in legs ==> leg.account.asset == asset
    ensures Credits(legs) + Debits(legs) == AssetSum(legs, asset)
  {
    if legs != [] {
      assert legs[|legs| - 1] in legs;
      CreditsAndDebits(legs[..|legs| - 1], asset);
    }
  }

  /** The amount is missing where there is no leg to sum, and for the kinds that have none. */
  lemma AmountMissingIff(op: Op)
    ensures op.kind == Deposit ==> (WithAmount(op) == None <==> forall leg :: leg in op.legs ==> leg.amount <= 0)
    ensures op.kind in {Withdrawal, Refund} ==>
      (WithAmount(op) == None <==> forall leg :: leg in op.legs ==> leg.amount >= 0)
    ensures op.kind in {Buy, Sell, Correction} ==> WithAmount(op) == None
  {
  }

  /** The fee is the size of what the fee accounts net, and the total adds it to a deposit's amount and takes
      it from a withdrawal's. */
  lemma TotalsFromFees(op: Op, feeAccounts: set<Account>)
    requires op.kind == Deposit || op.kind == Withdrawal
    ensures WithFee(op, feeAccounts).Some? && WithFee(op, feeAccounts).value >= 0
    ensures var fee, net := WithFee(op, feeAccounts).value, SumOn(op.legs, feeAccounts); fee == net || fee == -net
    ensures WithTotalAmount(op, feeAccounts) == None <==> WithAmount(op) == None
    ensures WithAmount(op).Some? ==> WithTotalAmount(op, feeAccounts) == Some(
      if op.kind == Deposit then WithAmount(op).value + WithFee(op, feeAccounts).value
      else WithAmount(op).value - WithFee(op, feeAccounts).value)
  {
  }

  /** On a validated operation in a single asset the gross amount is the same whether it is read off
      the positive or the negative legs. */
  lemma GrossAmountsAgree(legs: seq<Leg>, asset: Asset)
    requires Balanced(legs) && forall leg :: leg in legs ==> leg.account.asset == asset
    ensures Abs(Credits(legs)) == Abs(Debits(legs))
  {
    CreditsAndDebits(legs, asset);
    BalancedInEveryAsset(legs, asset);
  }

  /** The fee accounts are the ones that fees are posted to, and no others of the operation. */
  predicate FeesApart(d: Payment, feeAccounts: set<Account>) {
    && (d.Fee() != 0 ==> d.feeAccount.value in feeAccounts)
    && (d.Rounding() != 0 ==> d.roundingAccount.value !in feeAccounts)
    && d.user !in feeAccounts && d.payment !in feeAccounts
  }

  lemma PaymentAmounts(d: Payment, feeAccounts: set<Account>)
    requires d.amount > 0
    ensures Credits(DepositLegs(d)) == d.amount + Abs(d.Fee()) + Abs(d.Rounding()) == -Debits(DepositLegs(d))
    ensures Credits(WithdrawalLegs(d)) == d.amount + Abs(d.Fee()) + Abs(d.Rounding()) == -Debits(WithdrawalLegs(d))
    ensures FeesApart(d, feeAccounts) ==>
      SumOn(DepositLegs(d), feeAccounts) == d.Fee() == SumOn(WithdrawalLegs(d), feeAccounts)
  {
    hide Credits, Debits, SumOn, OptionalTransfer, Transfer;
    var fee := OptionalTransfer(d.user, d.feeAccount, d.Fee());
    var remains := OptionalTransfer(d.payment, d.roundingAccount, -d.Rounding());
    OptionalAmounts(d.user, d.feeAccount, d.Fee(), feeAccounts);
    OptionalAmounts(d.payment, d.roundingAccount, -d.Rounding(), feeAccounts);
    SumsConcat(fee, remains, feeAccounts);
    TransferAmounts(d.payment, d.user, d.amount, feeAccounts);
    TransferAmounts(d.user, d.payment, d.amount, feeAccounts);
    SumsConcat(Transfer(d.payment, d.user, d.amount), ExtraLegs(d), feeAccounts);
    SumsConcat(Transfer(d.user, d.payment, d.amount), ExtraLegs(d), feeAccounts);
  }

  lemma MainLegs(d: Payment)
    ensures Leg(d.user, d.amount) in DepositLegs(d) && Leg(d.user, -d.amount) in WithdrawalLegs(d)
  {
    assert DepositLegs(d)[1] == Leg(d.user, d.amount);
    assert WithdrawalLegs(d)[0] == Leg(d.user, -d.amount);
  }

  /** A withdrawal's total amount is its principal exactly when there are no remains, and its amount is what
      left the user's account exactly when, besides, the fee is not negative. */
  lemma WithdrawalTotals(d: Payment, feeAccounts: set<Account>)
    requires WithdrawalAllowed(d) && FeesApart(d, feeAccounts)
    ensures WithAmount(WithdrawalOp(d)) == Some(d.amount + Abs(d.Fee()) + Abs(d.Rounding()))
    ensures WithTotalAmount(WithdrawalOp(d), feeAccounts) == Some(d.amount + Abs(d.Rounding()))
    ensures WithTotalAmount(WithdrawalOp(d), feeAccounts) == Some(d.amount) <==> d.Rounding() == 0
    ensures d.user != d.payment && (d.Rounding() != 0 ==> d.roundingAccount.value != d.user) ==>
      (WithAmount(WithdrawalOp(d)) == Some(-LegSum(WithdrawalOp(d).legs, d.user))
       <==> d.Rounding() == 0 && d.Fee() >= 0)
  {
    hide Credits, Debits, SumOn, LegSum, WithdrawalLegs;
    PaymentAmounts(d, feeAccounts);
    WithdrawalMoves(d, d.user);
    MainLegs(d);
  }

  /** For a deposit the amount adds the fee and the remains to what was paid in, and the total amount adds the
      fee once more: it equals what left the payment method exactly when there is no fee and the remains
      are not positive. */
  lemma DepositTotals(d: Payment, feeAccounts: set<Account>)
    requires DepositAllowed(d) && FeesApart(d, feeAccounts)
    ensures WithAmount(DepositOp(d)) == Some(d.amount + Abs(d.Fee()) + Abs(d.Rounding()))
    ensures WithTotalAmount(DepositOp(d), feeAccounts) == Some(d.amount + 2 * Abs(d.Fee()) + Abs(d.Rounding()))
    ensures d.user != d.payment && (d.Rounding() != 0 ==> d.roundingAccount.value != d.payment) ==>
      (WithTotalAmount(DepositOp(d), feeAccounts) == Some(-LegSum(DepositOp(d).legs, d.payment))
       <==> d.Fee() == 0 && d.Rounding() <= 0)
  {
    hide Credits, Debits, SumOn, LegSum, DepositLegs;
    PaymentAmounts(d, feeAccounts);
    DepositMoves(d, d.payment);
    MainLegs(d);
  }

  /** A refund shows what it moves, none if that is nothing, and neither fee nor total; exchanges and
      corrections show no amount at all. */
  lemma OtherAmounts(id: OpId, deposit: Op, amount: int, references: Option<map<string, string>>, op: Op,
                     feeAccounts: set<Account>)
    requires deposit.legs != []
    ensures var refund := RefundOp(id, deposit, amount, references);
      && WithAmount(refund) == (if amount == 0 then None else Some(if amount > 0 then amount else -amount))
      && WithFee(refund, feeAccounts) == None == WithTotalAmount(refund, feeAccounts)
    ensures op.kind in {Buy, Sell, Correction} ==>
      WithAmount(op) == None == WithTotalAmount(op, feeAccounts) && WithFee(op, feeAccounts) == None
  {
    hide Smallest, Largest;
    var from, to := Smallest(deposit.legs).account, Largest(deposit.legs).account;
    var legs := Transfer(from, to, amount);
    TransferAmounts(from, to, amount, feeAccounts);
    assert legs[0] == Leg(from, -amount) && legs[1] == Leg(to, amount);
    assert legs[0] in legs && legs[1] in legs;
  }
}
