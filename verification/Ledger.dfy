/** The operation manager and the operation state machine: legs are posted one by one, the whole
    operation is validated, and it is then held or deleted. */
module LedgerModel {
  import opened Common
  import opened Sums
  import opened Accounting
  import opened Postings

  datatype Fault =
    | AssertionFailed
    | NoSuchLeg
    | Unbalanced(asset: Asset)
    | WrongSign(leg: Leg)
    | OutOfBounds(account: Account)

  datatype Outcome<+T> = Ok(value: T) | Raised(fault: Fault)

  // ----- Specification of the manager -----

  function WithStatus(book: Book, id: OpId, status: Status): Book
    requires id in book
  {
    book[id := book[id].(status := status)]
  }

  /** The fault is a genuine reason why the operation is not valid. */
  ghost predicate Blames(book: Book, legs: seq<Leg>, includeNew: bool, fault: Fault) {
    match fault
    case Unbalanced(asset) => AssetSum(legs, asset) != 0
    case WrongSign(leg) => Balanced(legs) && leg in legs && !SignOk(leg)
    case OutOfBounds(a) =>
      Balanced(legs) && (exists leg :: leg in legs && leg.account == a) && !InBounds(a, Balance(book, a, includeNew))
    case _ => false
  }

  /** The operation would pass validation once posted. */
  ghost predicate Acceptable(book: Book, id: OpId, op: Op) {
    Valid(book[id := op.(status := New)], op.legs, true)
  }

  /** The table after posting `op`, validating it, and holding or deleting it. */
  ghost function Created(book: Book, id: OpId, op: Op, hold: bool): Book {
    if Acceptable(book, id, op) then book[id := op.(status := if hold then Hold else New)] else book
  }

  function DepositOp(d: Payment): Op {
    Op(Deposit, New, DepositLegs(d), OrEmpty(d.references))
  }

  function WithdrawalOp(d: Payment): Op {
    Op(Withdrawal, New, WithdrawalLegs(d), OrEmpty(d.references))
  }

  function ExchangeOp(e: Exchange): Op {
    Op(ExchangeKind(e), New, ExchangeLegs(e), OrEmpty(e.references))
  }

  /** The first leg in ascending order of amount. */
  function Smallest(legs: seq<Leg>): (leg: Leg)
    requires legs != []
    ensures leg in legs && forall other :: other in legs ==> leg.amount <= other.amount
  {
    var last := legs[|legs| - 1];
    if |legs| == 1 then last
    else
      var best := Smallest(legs[..|legs| - 1]);
      if last.amount < best.amount then last else best
  }

  /** The last leg in ascending order of amount. */
  function Largest(legs: seq<Leg>): (leg: Leg)
    requires legs != []
    ensures leg in legs && forall other :: other in legs ==> other.amount <= leg.amount
  {
    var last := legs[|legs| - 1];
    if |legs| == 1 then last
    else
      var best := Largest(legs[..|legs| - 1]);
      if last.amount >= best.amount then last else best
  }

  function RefundOp(depositId: OpId, deposit: Op, amount: int, references: Option<map<string, string>>): Op
    requires deposit.legs != []
  {
    Op(Refund, New,
       Transfer(Smallest(deposit.legs).account, Largest(deposit.legs).account, amount),
       OrEmpty(references)[DEPOSIT_KEY := depositId])
  }

  /** A deposit of fiat money needs a positive amount and names the user's bank account; no other posting
      looks at its references. */
  lemma WhatIsAllowed(d: Payment, e: Exchange)
    ensures DepositAllowed(d) <==>
      && d.amount > 0
      && (d.payment.asset.kind == Fiat ==> d.references.Some? && "user_bank_account_uuid" in d.references.value)
    ensures WithdrawalAllowed(d) <==> d.amount > 0
    ensures ExchangeAllowed(e) <==>
      e.feeAmount >= 0 && ((e.baseAmount > 0 && e.quoteAmount < 0) || (e.baseAmount < 0 && e.quoteAmount > 0))
  {
    var product := e.baseAmount * e.quoteAmount;
    if (e.baseAmount > 0 && e.quoteAmount < 0) || (e.baseAmount < 0 && e.quoteAmount > 0) {
      OppositeProduct(e.baseAmount, e.quoteAmount);
    }
    if product < 0 {
      OppositeSigns(e.baseAmount, e.quoteAmount);
    }
  }

  lemma OppositeProduct(x: int, y: int)
    requires (x > 0 && y < 0) || (x < 0 && y > 0)
    ensures x * y < 0
  {
  }

  /** The references given are stored as they are, and none means an empty dictionary. */
  lemma ReferencesKept(d: Payment, e: Exchange)
    ensures DepositOp(d).references == WithdrawalOp(d).references
    ensures d.references.None? ==> DepositOp(d).references == map[]
    ensures d.references.Some? ==> DepositOp(d).references == d.references.value
    ensures e.references.None? ==> ExchangeOp(e).references == map[]
    ensures e.references.Some? ==> ExchangeOp(e).references == e.references.value
  {
  }

  /** A refund refers to its deposit; every other reference is as given. */
  lemma RefundRefers(id: OpId, deposit: Op, amount: int, references: Option<map<string, string>>, key: string)
    requires deposit.legs != []
    ensures var stored := RefundOp(id, deposit, amount, references).references;
      && "deposit" in stored && stored["deposit"] == id
      && (key != "deposit" ==>
            && (key in stored <==> references.Some? && key in references.value)
            && (key in stored ==> stored[key] == references.value[key]))
  {
  }

  class Ledger {
    var book: Book

    constructor ()
      ensures book == map[]
    {
      book := map[];
    }

    // ----- Reading -----

    /** The aggregate over all rows whose operation is not excluded. */
    method CalculateBalance(a: Account, includeNew: bool) returns (balance: int)
      ensures balance == Balance(book, a, includeNew)
    {
      var excluded := {Deleted, Cancelled};
      if !includeNew {
        excluded := excluded + {New};
      }
      forall s: Status ensures s in excluded <==> s !in Counted(includeNew) {
        match s case New => case Hold => case Committed => case Cancelled => case Deleted =>
      }
      ghost var weight := LegWeight(StatusRule(Counted(includeNew)), a);
      var rest := book;
      balance := 0;
      while rest != map[]
        invariant rest.Keys <= book.Keys && forall id :: id in rest ==> rest[id] == book[id]
        invariant balance + Total(rest, weight) == Total(book, weight)
        decreases |rest|
      {
        var id :| id in rest;
        TotalSplit(rest, id, weight);
        if rest[id].status !in excluded {
          balance := balance + LegSum(rest[id].legs, a);
        }
        rest := rest - {id};
      }
    }

    method AccountIsValid(a: Account, includeNew: bool) returns (ok: bool)
      ensures ok <==> InBounds(a, Balance(book, a, includeNew))
    {
      if a.kind == Normal {
        return true;
      }
      var balance := CalculateBalance(a, includeNew);
      if a.kind == Active && balance < 0 {
        return false;
      }
      if a.kind == Passive && balance > 0 {
        return false;
      }
      ok := true;
    }

    method LegIsValid(leg: Leg) returns (ok: bool)
      ensures ok <==> SignOk(leg)
    {
      if leg.account.strict {
        if leg.account.kind == Active && leg.amount < 0 {
          return false;
        }
        if leg.account.kind == Passive && leg.amount > 0 {
          return false;
        }
      }
      ok := true;
    }

    /** Totals per asset first, then leg by leg the sign rule and the account's balance. */
    method IsValid(id: OpId, includeNew: bool) returns (r: Outcome<bool>)
      requires id in book
      ensures r.Ok? <==> Valid(book, book[id].legs, includeNew)
      ensures r.Raised? ==> Blames(book, book[id].legs, includeNew, r.fault)
    {
      var legs := book[id].legs;
      for i := 0 to |legs|
        invariant forall k :: 0 <= k < i ==> AssetSum(legs, legs[k].account.asset) == 0
      {
        if AssetSum(legs, legs[i].account.asset) != 0 {
          assert legs[i] in legs;
          return Raised(Unbalanced(legs[i].account.asset));
        }
      }
      for i := 0 to |legs|
        invariant forall k :: 0 <= k < i ==> SignOk(legs[k])
        invariant forall k :: 0 <= k < i ==> InBounds(legs[k].account, Balance(book, legs[k].account, includeNew))
      {
        var leg := legs[i];
        assert leg in legs;
        var signed := LegIsValid(leg);
        if !signed {
          return Raised(WrongSign(leg));
        }
        var ok := AccountIsValid(leg.account, includeNew);
        if !ok {
          return Raised(OutOfBounds(leg.account));
        }
      }
      r := Ok(true);
    }

    // ----- The operation's status -----

    method HoldOperation(id: OpId) returns (r: Outcome<bool>)
      requires id in book
      modifies this
      ensures r.Ok? <==> Valid(old(book), old(book)[id].legs, true)
      ensures book == if r.Ok? then WithStatus(old(book), id, Hold) else old(book)
      ensures r.Raised? ==> Blames(book, book[id].legs, true, r.fault)
    {
      r := IsValid(id, true);
      if r.Ok? {
        book := book[id := book[id].(status := Hold)];
      }
    }

    method Commit(id: OpId) returns (r: Outcome<bool>)
      requires id in book
      modifies this
      ensures r.Ok? <==> old(book)[id].status == Hold && Valid(old(book), old(book)[id].legs, false)
      ensures book == if r.Ok? then WithStatus(old(book), id, Committed) else old(book)
    {
      if book[id].status != Hold {
        return Raised(AssertionFailed);
      }
      r := IsValid(id, false);
      if r.Ok? {
        book := book[id := book[id].(status := Committed)];
      }
    }

    method Cancel(id: OpId)
      requires id in book
      modifies this
      ensures book == WithStatus(old(book), id, Cancelled)
    {
      book := book[id := book[id].(status := Cancelled)];
    }

    method Reject(id: OpId, reason: string)
      requires id in book
      modifies this
      ensures book == WithStatus(old(book), id, Deleted)
                      [id := old(book)[id].(status := Deleted,
                                            references := old(book)[id].references["reject_reason" := reason])]
    {
      book := book[id := book[id].(status := Deleted)];
      book := book[id := book[id].(references := book[id].references[REJECT_REASON_KEY := reason])];
    }

    // ----- Creating operations -----

    method AddLeg(id: OpId, account: Account, amount: int)
      requires id in book
      modifies this
      ensures book == old(book)[id := old(book)[id].(legs := old(book)[id].legs + [Leg(account, amount)])]
    {
      book := book[id := book[id].(legs := book[id].legs + [Leg(account, amount)])];
    }

    method ValidateHoldOrDelete(id: OpId, hold: bool, ghost before: Book, ghost op: Op) returns (r: Outcome<OpId>)
      requires id !in before && op.status == New && book == before[id := op]
      modifies this
      ensures r.Ok? <==> Acceptable(before, id, op)
      ensures r.Ok? ==> r.value == id
      ensures book == Created(before, id, op, hold)
      ensures r.Raised? ==> Blames(before[id := op], op.legs, true, r.fault)
    {
      assert op.(status := New) == op;
      var valid := IsValid(id, true);
      if valid.Raised? {
        book := book - {id};
        return Raised(valid.fault);
      }
      if hold {
        // With no other transaction in between, the second validation repeats the first one; the
        // deletion that guards against its failure belongs to the concurrent model.
        var held := HoldOperation(id);
        assert held.Ok?;
      }
      r := Ok(id);
    }

    method CreateDeposit(id: OpId, d: Payment, hold: bool) returns (r: Outcome<OpId>)
      requires id !in book
      modifies this
      ensures r.Ok? <==> DepositAllowed(d) && Acceptable(old(book), id, DepositOp(d))
      ensures r.Ok? ==> r.value == id && book == old(book)[id := DepositOp(d).(status := if hold then Hold else New)]
      ensures r.Raised? ==> book == old(book)
    {
      if d.amount <= 0 || (d.payment.asset.kind == Fiat
                           && (d.references.None? || BANK_ACCOUNT_KEY !in d.references.value)) {
        return Raised(AssertionFailed);
      }
      book := book[id := Op(Deposit, New, [], OrEmpty(d.references))];
      AddLeg(id, d.payment, -d.amount);
      AddLeg(id, d.user, d.amount);
      AddExtras(id, d);
      assert book[id].legs == DepositLegs(d);
      r := ValidateHoldOrDelete(id, hold, old(book), DepositOp(d));
    }

    method CreateWithdrawal(id: OpId, d: Payment, hold: bool) returns (r: Outcome<OpId>)
      requires id !in book
      modifies this
      ensures r.Ok? <==> WithdrawalAllowed(d) && Acceptable(old(book), id, WithdrawalOp(d))
      ensures r.Ok? ==> r.value == id && book == old(book)[id := WithdrawalOp(d).(status := if hold then Hold else New)]
      ensures r.Raised? ==> book == old(book)
    {
      if d.amount <= 0 {
        return Raised(AssertionFailed);
      }
      book := book[id := Op(Withdrawal, New, [], OrEmpty(d.references))];
      AddLeg(id, d.user, -d.amount);
      AddLeg(id, d.payment, d.amount);
      AddExtras(id, d);
      assert book[id].legs == WithdrawalLegs(d);
      r := ValidateHoldOrDelete(id, hold, old(book), WithdrawalOp(d));
    }

    /** The optional fee and rounding legs of a deposit or a withdrawal. */
    method AddExtras(id: OpId, d: Payment)
      requires id in book
      modifies this
      ensures book == old(book)[id := old(book)[id].(legs := old(book)[id].legs + ExtraLegs(d))]
    {
      if d.feeAccount.Some? && d.feeAmount.Some? && d.feeAmount.value != 0 {
        AddLeg(id, d.user, -d.feeAmount.value);
        AddLeg(id, d.feeAccount.value, d.feeAmount.value);
      }
      if d.roundingAmount.Some? && d.roundingAmount.value != 0 && d.roundingAccount.Some? {
        AddLeg(id, d.payment, d.roundingAmount.value);
        AddLeg(id, d.roundingAccount.value, -d.roundingAmount.value);
      }
      assert book[id].legs == old(book)[id].legs + ExtraLegs(d);
    }

    method CreateExchange(id: OpId, e: Exchange, hold: bool) returns (r: Outcome<OpId>)
      requires id !in book
      modifies this
      ensures r.Ok? <==> ExchangeAllowed(e) && Acceptable(old(book), id, ExchangeOp(e))
      ensures r.Ok? ==> r.value == id && book == old(book)[id := ExchangeOp(e).(status := if hold then Hold else New)]
      ensures r.Raised? ==> book == old(book)
    {
      if e.baseAmount * e.quoteAmount >= 0 || e.feeAmount < 0 {
        return Raised(AssertionFailed);
      }
      book := book[id := Op(if e.baseAmount > 0 then Buy else Sell, New, [], OrEmpty(e.references))];
      AddExchangeMain(id, e);
      AddExchangeRounding(id, e);
      assert book[id].legs == ExchangeLegs(e);
      r := ValidateHoldOrDelete(id, hold, old(book), ExchangeOp(e));
    }

    method AddExchangeMain(id: OpId, e: Exchange)
      requires id in book
      modifies this
      ensures book == old(book)[id := old(book)[id].(legs := old(book)[id].legs + ExchangeMainLegs(e))]
    {
      AddLeg(id, e.base, e.baseAmount);
      AddLeg(id, e.baseExchange, -e.baseAmount);
      AddLeg(id, e.quote, e.quoteAmount);
      AddLeg(id, e.quoteExchange, -e.quoteAmount);
      AddLeg(id, e.quote, -e.feeAmount);
      AddLeg(id, e.feeAccount, e.feeAmount);
      assert book[id].legs == old(book)[id].legs + ExchangeMainLegs(e);
    }

    method AddExchangeRounding(id: OpId, e: Exchange)
      requires id in book
      modifies this
      ensures book == old(book)[id := old(book)[id].(legs := old(book)[id].legs + ExchangeRoundingLegs(e))]
    {
      if e.baseRoundingAmount.Some? && e.baseRoundingAmount.value != 0 && e.baseRoundingAccount.Some? {
        AddLeg(id, e.baseExchange, e.baseRoundingAmount.value);
        AddLeg(id, e.baseRoundingAccount.value, -e.baseRoundingAmount.value);
      }
      if e.quoteRoundingAmount.Some? && e.quoteRoundingAmount.value != 0 && e.quoteRoundingAccount.Some? {
        AddLeg(id, e.quoteExchange, e.quoteRoundingAmount.value);
        AddLeg(id, e.quoteRoundingAccount.value, -e.quoteRoundingAmount.value);
      }
      assert book[id].legs == old(book)[id].legs + ExchangeRoundingLegs(e);
    }

    /** The smallest leg of the deposit is taken for the account to debit and the largest for the
        account to credit. */
    method CreateRefund(id: OpId, depositId: OpId, amount: int, references: Option<map<string, string>>, hold: bool)
      returns (r: Outcome<OpId>)
      requires id !in book && depositId in book
      modifies this
      ensures r.Ok? <==>
        && old(book)[depositId].status == Committed
        && old(book)[depositId].legs != []
        && Acceptable(old(book), id, RefundOp(depositId, old(book)[depositId], amount, references))
      ensures r.Ok? ==> r.value == id && book == old(book)[id :=
        RefundOp(depositId, old(book)[depositId], amount, references).(status := if hold then Hold else New)]
      ensures r.Raised? ==> book == old(book)
    {
      var deposit := book[depositId];
      if deposit.status != Committed {
        return Raised(AssertionFailed);
      }
      if deposit.legs == [] {
        return Raised(NoSuchLeg);
      }
      var userAccount := Smallest(deposit.legs).account;
      var paymentMethodAccount := Largest(deposit.legs).account;
      book := book[id := Op(Refund, New, [], OrEmpty(references)[DEPOSIT_KEY := depositId])];
      AddLeg(id, userAccount, -amount);
      AddLeg(id, paymentMethodAccount, amount);
      assert book[id].legs == Transfer(userAccount, paymentMethodAccount, amount);
      r := ValidateHoldOrDelete(id, hold, old(book), RefundOp(depositId, deposit, amount, references));
    }
  }
}
