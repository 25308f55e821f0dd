/** Which legs a refund finds in the deposit, and what it posts. */
module Refunds {
  import opened Common
  import opened Accounting
  import opened Postings
  import opened LedgerModel

  /** The accounts that the fee and the remains are posted to, if any, are other ones. */
  predicate Distinct(d: Payment) {
    && d.payment != d.user
    && (d.Fee() != 0 ==> d.feeAccount.value != d.user && d.feeAccount.value != d.payment)
    && (d.Rounding() != 0 ==> d.roundingAccount.value != d.user && d.roundingAccount.value != d.payment)
  }

  predicate IsFirst(legs: seq<Leg>, leg: Leg) {
    leg in legs && forall other :: other in legs ==> leg.amount <= other.amount
  }

  predicate IsLast(legs: seq<Leg>, leg: Leg) {
    leg in legs && forall other :: other in legs ==> other.amount <= leg.amount
  }

  /** However ties are ordered, the first leg by amount is the payment method's and the last the user's. */
  ghost predicate SelectsAccounts(legs: seq<Leg>, payment: Account, user: Account) {
    && (forall leg :: IsFirst(legs, leg) ==> leg.account == payment)
    && (forall leg :: IsLast(legs, leg) ==> leg.account == user)
  }

  predicate ExtrasBelowAmount(d: Payment) {
    -d.amount < d.Fee() < d.amount && -d.amount < d.Rounding() < d.amount
  }

  function FeeLegs(d: Payment): seq<Leg> { OptionalTransfer(d.user, d.feeAccount, d.Fee()) }
  function RoundingLegs(d: Payment): seq<Leg> { OptionalTransfer(d.payment, d.roundingAccount, -d.Rounding()) }

  /** The legs of a deposit, as a set. */
  lemma DepositLegsAre(d: Payment, leg: Leg)
    ensures leg in DepositLegs(d) <==>
      || leg == Leg(d.payment, -d.amount)
      || leg == Leg(d.user, d.amount)
      || (d.Fee() != 0 && (leg == Leg(d.user, -d.Fee()) || leg == Leg(d.feeAccount.value, d.Fee())))
      || (d.Rounding() != 0
          && (leg == Leg(d.payment, d.Rounding()) || leg == Leg(d.roundingAccount.value, -d.Rounding())))
  {
    var main := Transfer(d.payment, d.user, d.amount);
    assert DepositLegs(d) == main + (FeeLegs(d) + RoundingLegs(d));
    assert main[0] == Leg(d.payment, -d.amount) && main[1] == Leg(d.user, d.amount);
    if d.Fee() != 0 {
      assert FeeLegs(d)[0] == Leg(d.user, -d.Fee()) && FeeLegs(d)[1] == Leg(d.feeAccount.value, d.Fee());
    }
    if d.Rounding() != 0 {
      assert RoundingLegs(d)[0] == Leg(d.payment, d.Rounding());
      assert RoundingLegs(d)[1] == Leg(d.roundingAccount.value, -d.Rounding());
    }
  }

  lemma SmallExtrasSelect(d: Payment)
    requires d.amount > 0 && ExtrasBelowAmount(d)
    ensures SelectsAccounts(DepositLegs(d), d.payment, d.user)
  {
    var legs := DepositLegs(d);
    DepositLegsAre(d, Leg(d.payment, -d.amount));
    DepositLegsAre(d, Leg(d.user, d.amount));
    forall leg | IsFirst(legs, leg) ensures leg.account == d.payment {
      DepositLegsAre(d, leg);
    }
    forall leg | IsLast(legs, leg) ensures leg.account == d.user {
      DepositLegsAre(d, leg);
    }
  }

  /** A leg on the wrong account lies strictly inside the extremes. */
  lemma WrongAccountInside(d: Payment, leg: Leg)
    requires SelectsAccounts(DepositLegs(d), d.payment, d.user) && leg in DepositLegs(d)
    ensures leg.account != d.user ==> leg.amount < Largest(DepositLegs(d)).amount
    ensures leg.account != d.payment ==> Smallest(DepositLegs(d)).amount < leg.amount
  {
    var legs := DepositLegs(d);
    assert IsFirst(legs, Smallest(legs)) && IsLast(legs, Largest(legs));
    assert leg.amount >= Largest(legs).amount ==> IsLast(legs, leg);
    assert leg.amount <= Smallest(legs).amount ==> IsFirst(legs, leg);
  }

  lemma SelectionBoundsExtras(d: Payment)
    requires d.amount > 0 && Distinct(d) && SelectsAccounts(DepositLegs(d), d.payment, d.user)
    ensures ExtrasBelowAmount(d)
  {
    hide SelectsAccounts, DepositLegs, Smallest, Largest;
    DepositLegsAre(d, Leg(d.user, d.amount));
    DepositLegsAre(d, Smallest(DepositLegs(d)));
    DepositLegsAre(d, Largest(DepositLegs(d)));
    if d.Fee() != 0 {
      var fee := Leg(d.feeAccount.value, d.Fee());
      DepositLegsAre(d, fee);
      WrongAccountInside(d, fee);
    }
    if d.Rounding() != 0 {
      var remains := Leg(d.roundingAccount.value, -d.Rounding());
      DepositLegsAre(d, remains);
      WrongAccountInside(d, remains);
    }
  }

  /** The selection is right, however ties are ordered, exactly when the fee and the remains are
      smaller than the amount. */
  lemma {:induction false} SelectionIsRightIff(d: Payment)
    requires d.amount > 0 && Distinct(d)
    ensures SelectsAccounts(DepositLegs(d), d.payment, d.user) <==> ExtrasBelowAmount(d)
  {
    if ExtrasBelowAmount(d) {
      SmallExtrasSelect(d);
    }
    if SelectsAccounts(DepositLegs(d), d.payment, d.user) {
      SelectionBoundsExtras(d);
    }
  }

  // ----- What the refund posts -----

  lemma TransferBalanced(from: Account, to: Account, amount: int)
    ensures Balanced(Transfer(from, to, amount)) <==> amount == 0 || from.asset == to.asset
  {
    var legs := Transfer(from, to, amount);
    forall asset ensures AssetSum(legs, asset)
                      == (if to.asset == asset then amount else 0) - (if from.asset == asset then amount else 0) {
      TransferSums(from, to, amount, from, asset);
    }
    assert legs[1] in legs && legs[1].account == to;
  }

  /** As written, the refund debits the payment method and credits the user once more. */
  lemma RefundPosts(id: OpId, d: Payment, status: Status, amount: int, references: Option<map<string, string>>,
                    a: Account)
    requires d.amount > 0 && ExtrasBelowAmount(d)
    ensures var legs := RefundOp(id, DepositOp(d).(status := status), amount, references).legs;
      && legs == Transfer(d.payment, d.user, amount)
      && (Balanced(legs) <==> amount == 0 || d.payment.asset == d.user.asset)
      && LegSum(legs, a) == On(d.user, a, amount) - On(d.payment, a, amount)
  {
    var legs := DepositLegs(d);
    SmallExtrasSelect(d);
    assert IsFirst(legs, Smallest(legs)) && IsLast(legs, Largest(legs));
    TransferSums(d.payment, d.user, amount, a, a.asset);
    TransferBalanced(d.payment, d.user, amount);
  }

  /** The deposit and its refund cancel on every account. */
  ghost predicate Reverses(deposit: seq<Leg>, refund: seq<Leg>) {
    forall a :: LegSum(deposit, a) + LegSum(refund, a) == 0
  }

  /** What is left on an account after the deposit and a refund of `amount`. */
  lemma RefundLeaves(id: OpId, d: Payment, status: Status, amount: int, references: Option<map<string, string>>,
                     a: Account)
    requires d.amount > 0 && ExtrasBelowAmount(d)
    ensures LegSum(DepositLegs(d), a)
            + LegSum(RefundOp(id, DepositOp(d).(status := status), amount, references).legs, a)
         == On(d.user, a, d.amount - d.Fee() + amount) - On(d.payment, a, d.amount - d.Rounding() + amount)
            + OnOption(d.feeAccount, a, d.Fee()) - OnOption(d.roundingAccount, a, d.Rounding())
  {
    hide LegSum, Smallest, Largest, ExtrasBelowAmount;
    DepositMoves(d, a);
    RefundPosts(id, d, status, amount, references, a);
  }

  /** A refund reverses the deposit if and only if its amount is the fee less the deposit's amount, and
      the fee equals the remains and is posted to the account that bears them: minus the deposit's amount
      when there are neither. */
  lemma RefundReversesIff(id: OpId, d: Payment, status: Status, amount: int, references: Option<map<string, string>>)
    requires d.amount > 0 && Distinct(d) && ExtrasBelowAmount(d)
    ensures Reverses(DepositLegs(d), RefundOp(id, DepositOp(d).(status := status), amount, references).legs) <==>
      && amount == d.Fee() - d.amount && d.Fee() == d.Rounding()
      && (d.Fee() == 0 || d.feeAccount == d.roundingAccount)
  {
    hide LegSum, Smallest, Largest;
    forall a
      ensures LegSum(DepositLegs(d), a)
              + LegSum(RefundOp(id, DepositOp(d).(status := status), amount, references).legs, a)
           == On(d.user, a, d.amount - d.Fee() + amount) - On(d.payment, a, d.amount - d.Rounding() + amount)
              + OnOption(d.feeAccount, a, d.Fee()) - OnOption(d.roundingAccount, a, d.Rounding())
    {
      RefundLeaves(id, d, status, amount, references, a);
    }
    var leaves := (a: Account) => LegSum(DepositLegs(d), a)
                                + LegSum(RefundOp(id, DepositOp(d).(status := status), amount, references).legs, a);
    assert leaves(d.user) == d.amount - d.Fee() + amount;
    assert leaves(d.payment) == -(d.amount - d.Rounding() + amount);
    assert d.Fee() != 0 ==>
      leaves(d.feeAccount.value) == d.Fee() - OnOption(d.roundingAccount, d.feeAccount.value, d.Rounding());
  }

  /** In particular a refund of the full amount never does. Without fee and remains it repeats the deposit. */
  lemma FullRefundRepeats(id: OpId, d: Payment, status: Status, references: Option<map<string, string>>)
    requires d.amount > 0 && Distinct(d) && ExtrasBelowAmount(d)
    ensures var refund := RefundOp(id, DepositOp(d).(status := status), d.amount, references).legs;
      && !Reverses(DepositLegs(d), refund)
      && (d.Fee() == 0 && d.Rounding() == 0 ==> forall a :: LegSum(refund, a) == LegSum(DepositLegs(d), a))
  {
    hide LegSum, Smallest, Largest;
    RefundReversesIff(id, d, status, d.amount, references);
    forall a
      ensures LegSum(RefundOp(id, DepositOp(d).(status := status), d.amount, references).legs, a)
           == On(d.user, a, d.amount) - On(d.payment, a, d.amount)
      ensures d.Fee() == 0 && d.Rounding() == 0 ==>
        LegSum(DepositLegs(d), a) == On(d.user, a, d.amount) - On(d.payment, a, d.amount)
    {
      RefundPosts(id, d, status, d.amount, references, a);
      DepositMoves(d, a);
    }
  }

  /** Not the repository's code: the refund with the two selected accounts exchanged, as the comment
      above the selection intends. */
  function RepairedRefundLegs(deposit: Op, amount: int): seq<Leg>
    requires deposit.legs != []
  {
    Transfer(Largest(deposit.legs).account, Smallest(deposit.legs).account, amount)
  }

  /** The repaired refund of the full amount leaves of the deposit only the fee and the remains. */
  lemma RepairedRefundReverses(d: Payment)
    requires d.amount > 0 && ExtrasBelowAmount(d)
    ensures forall a :: LegSum(DepositLegs(d), a) + LegSum(RepairedRefundLegs(DepositOp(d), d.amount), a)
                     == LegSum(ExtraLegs(d), a)
    ensures d.Fee() == 0 && d.Rounding() == 0 ==> Reverses(DepositLegs(d), RepairedRefundLegs(DepositOp(d), d.amount))
  {
    var legs := DepositLegs(d);
    SmallExtrasSelect(d);
    assert IsFirst(legs, Smallest(legs)) && IsLast(legs, Largest(legs));
    forall a
      ensures LegSum(legs, a) + LegSum(RepairedRefundLegs(DepositOp(d), d.amount), a) == LegSum(ExtraLegs(d), a)
    {
      TransferSums(d.user, d.payment, d.amount, a, a.asset);
      TransferSums(d.payment, d.user, d.amount, a, a.asset);
      LegSumConcat(Transfer(d.payment, d.user, d.amount), ExtraLegs(d), a);
    }
  }
}
