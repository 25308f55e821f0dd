/** The balance shown to users: credits appear when committed, debits as soon as they are held. */
module DisplayedBalance {
  import opened Common
  import opened Sums
  import opened Accounting
  import opened Postings
  import opened LedgerModel
  import opened LedgerRuns

  /** The filter of `with_balances`. */
  function ShownRule(): Rule {
    (op: Op, asset: Asset) =>
      match op.kind
      case Deposit => op.status == Committed
      case Withdrawal => op.status == Hold || op.status == Committed
      case Buy =>
        (asset.kind == Crypto && op.status == Committed)
        || (asset.kind == Fiat && (op.status == Hold || op.status == Committed))
      case Sell =>
        (asset.kind == Fiat && op.status == Committed)
        || (asset.kind == Crypto && (op.status == Hold || op.status == Committed))
      case _ => false
  }

  ghost function Displayed(book: Book, a: Account): int {
    BalanceBy(book, ShownRule(), a)
  }

  // ----- What is shown -----

  /** What a new operation adds to the displayed balance. */
  ghost function ShownBy(op: Op, a: Account): int {
    Displayed(map["" := op], a)
  }

  lemma ShownByRule(op: Op, a: Account)
    ensures ShownBy(op, a) == if ShownRule()(op, a.asset) then LegSum(op.legs, a) else 0
  {
    var none: Book := map[];
    assert map["" := op] == none["" := op];
    BalanceAfterWrite(none, "", op, ShownRule(), a);
    TotalZero(none, LegWeight(ShownRule(), a));
  }

  lemma WrittenShows(book: Book, id: OpId, op: Op, a: Account)
    requires id !in book
    ensures Displayed(book[id := op], a) == Displayed(book, a) + ShownBy(op, a)
  {
    BalanceAfterWrite(book, id, op, ShownRule(), a);
    ShownByRule(op, a);
  }

  /** Deposits and withdrawals: the first show once committed, the second from the hold on. */
  lemma PaymentsShown(op: Op, a: Account)
    ensures op.kind == Deposit ==> ShownBy(op, a) == if op.status == Committed then LegSum(op.legs, a) else 0
    ensures op.kind == Withdrawal && op.status in {Hold, Committed} ==> ShownBy(op, a) == LegSum(op.legs, a)
    ensures op.status in {New, Cancelled, Deleted} ==> ShownBy(op, a) == 0
  {
    ShownByRule(op, a);
  }

  /** Purchases and sales: both sides show once committed, the paying side from the hold on; a token
      account shows neither. */
  lemma TradesShown(op: Op, a: Account)
    requires op.kind == Buy || op.kind == Sell
    ensures a.asset.kind == Token ==> ShownBy(op, a) == 0
    ensures a.asset.kind != Token && op.status == Committed ==> ShownBy(op, a) == LegSum(op.legs, a)
    ensures op.status == Hold && op.kind == Buy ==>
      ShownBy(op, a) == if a.asset.kind == Fiat then LegSum(op.legs, a) else 0
    ensures op.status == Hold && op.kind == Sell ==>
      ShownBy(op, a) == if a.asset.kind == Crypto then LegSum(op.legs, a) else 0
  {
    ShownByRule(op, a);
  }

  /** Refunds and corrections show on no account, whatever their status. */
  lemma RefundsNeverShown(book: Book, id: OpId, op: Op, a: Account)
    requires op.kind == Refund || op.kind == Correction
    requires id in book ==> book[id].kind == Refund || book[id].kind == Correction
    ensures Displayed(book[id := op], a) == Displayed(book, a)
  {
    BalanceAfterWrite(book, id, op, ShownRule(), a);
  }

  /** A refund, and whatever becomes of its status, leaves every displayed balance as it was. */
  lemma {:induction false} RefundRunsNeverShown(book: Book, steps: seq<Step>, id: OpId, a: Account)
    requires RunEnabled(book, steps)
    requires id in book ==> book[id].kind == Refund
    requires forall step :: step in steps ==>
      && step.id == id
      && (step.PostRefund? || step.HoldStep? || step.CommitStep? || step.CancelStep? || step.RejectStep?)
    ensures Displayed(Run(book, steps), a) == Displayed(book, a)
    ensures id in Run(book, steps) ==> Run(book, steps)[id].kind == Refund
  {
    hide Displayed, Acceptable, Valid;
    if steps != [] {
      var init, last := steps[..|steps| - 1], steps[|steps| - 1];
      RefundRunsNeverShown(book, init, id, a);
      var before := Run(book, init);
      assert last in steps;
      var after := Next(before, last);
      if after != before {
        assert after == before[id := after[id]];
        RefundsNeverShown(before, id, after[id], a);
      }
    }
  }

  /** Both balance definitions conserve value over every run. */
  lemma BothBalancesConserved(steps: seq<Step>, asset: Asset, accounts: set<Account>)
    requires RunEnabled(map[], steps) && Covers(accounts, asset, Run(map[], steps))
    ensures SetSum(accounts, a => Balance(Run(map[], steps), a, true)) == 0
    ensures SetSum(accounts, a => Balance(Run(map[], steps), a, false)) == 0
    ensures SetSum(accounts, a => Displayed(Run(map[], steps), a)) == 0
  {
    var book := Run(map[], steps);
    Conservation(steps, StatusRule(Counted(true)), asset, accounts);
    Conservation(steps, StatusRule(Counted(false)), asset, accounts);
    Conservation(steps, ShownRule(), asset, accounts);
    SetSumSame(accounts, Balances(book, StatusRule(Counted(true))), a => Balance(book, a, true));
    SetSumSame(accounts, Balances(book, StatusRule(Counted(false))), a => Balance(book, a, false));
    SetSumSame(accounts, Balances(book, ShownRule()), a => Displayed(book, a));
  }

  /** The operation treats `a` as the account of a user: deposits credit it, withdrawals debit it,
      purchases credit crypto and debit fiat, sales the other way round. */
  predicate UserSide(op: Op, a: Account) {
    var net := LegSum(op.legs, a);
    match op.kind
    case Deposit => net >= 0
    case Withdrawal => net <= 0
    case Buy => (a.asset.kind == Crypto && net >= 0) || (a.asset.kind == Fiat && net <= 0) || net == 0
    case Sell => (a.asset.kind == Fiat && net >= 0) || (a.asset.kind == Crypto && net <= 0) || net == 0
    case _ => net == 0
  }

  ghost predicate UserSideOnly(book: Book, a: Account) {
    forall id :: id in book ==> UserSide(book[id], a)
  }

  /** What a held operation will credit to the account once committed. */
  function HeldCredit(a: Account): Op -> int {
    (op: Op) => if op.status == Hold && LegSum(op.legs, a) > 0 then LegSum(op.legs, a) else 0
  }

  /** The balance that counts held operations exceeds the displayed one by exactly the held credits. */
  lemma {:induction false} GapIsHeldCredits(book: Book, a: Account)
    requires UserSideOnly(book, a)
    ensures Balance(book, a, false) == Displayed(book, a) + Total(book, HeldCredit(a))
    ensures Displayed(book, a) <= Balance(book, a, false)
  {
    var counted := LegWeight(StatusRule(Counted(false)), a);
    var shown := LegWeight(ShownRule(), a);
    forall id | id in book ensures counted(book[id]) == shown(book[id]) + HeldCredit(a)(book[id]) {
      assert UserSide(book[id], a);
    }
    TotalAdd(book, shown, HeldCredit(a), counted);
    TotalNonNegative(book, HeldCredit(a));
  }

  ghost predicate IsAccount(account: Option<Account>, a: Account) {
    account == Some(a)
  }

  predicate Untouched(legs: seq<Leg>, a: Account) {
    forall leg :: leg in legs ==> leg.account != a
  }

  /** The operation does not touch `a`, or it uses `a` only as the user's own account: a deposit fee does not
      exceed the amount, and an exchange trades crypto against fiat with a fee within the gross credit. No
      refund touches `a`. Status changes are unrestricted. */
  ghost predicate UserStep(book: Book, step: Step, a: Account)
    requires Enabled(book, step)
  {
    match step
    case PostDeposit(_, d, _) => Untouched(DepositLegs(d), a) || OwnDeposit(d, a)
    case PostWithdrawal(_, d, _) => Untouched(WithdrawalLegs(d), a) || OwnWithdrawal(d, a)
    case PostExchange(_, e, _) => Untouched(ExchangeLegs(e), a) || OwnExchange(e, a)
    case PostRefund(_, depositId, amount, references, _) =>
      book[depositId].legs == [] || Untouched(RefundOp(depositId, book[depositId], amount, references).legs, a)
    case _ => true
  }

  ghost predicate OnlyUser(d: Payment, a: Account) {
    a != d.payment && !IsAccount(d.feeAccount, a) && !IsAccount(d.roundingAccount, a)
  }

  ghost predicate OwnDeposit(d: Payment, a: Account) {
    OnlyUser(d, a) && d.Fee() <= d.amount
  }

  ghost predicate OwnWithdrawal(d: Payment, a: Account) {
    OnlyUser(d, a) && -d.Fee() <= d.amount
  }

  ghost predicate OnlyTrades(e: Exchange, a: Account) {
    && a != e.baseExchange && a != e.quoteExchange && a != e.feeAccount
    && !IsAccount(e.baseRoundingAccount, a) && !IsAccount(e.quoteRoundingAccount, a)
  }

  ghost predicate OwnExchange(e: Exchange, a: Account) {
    && OnlyTrades(e, a)
    && e.base.asset.kind == Crypto && e.quote.asset.kind == Fiat
    && (a == e.quote && e.quoteAmount > 0 ==> e.feeAmount <= e.quoteAmount)
  }

  ghost predicate UserRun(steps: seq<Step>, a: Account)
    requires RunEnabled(map[], steps)
  {
    steps == [] ||
    var init := steps[..|steps| - 1];
    UserRun(init, a) && UserStep(Run(map[], init), steps[|steps| - 1], a)
  }

  ghost predicate UserReaches(steps: seq<Step>, book: Book, a: Account) {
    Reaches(steps, book) && UserRun(steps, a)
  }

  lemma UserReachNext(steps: seq<Step>, book: Book, step: Step, a: Account)
    requires UserReaches(steps, book, a) && Enabled(book, step) && UserStep(book, step, a)
    ensures UserReaches(steps + [step], Next(book, step), a)
  {
    ReachNext(steps, book, step);
    assert (steps + [step])[..|steps|] == steps;
  }

  lemma CreatedUserSide(book: Book, id: OpId, op: Op, hold: bool, a: Account)
    requires UserSideOnly(book, a) && UserSide(op, a)
    ensures UserSideOnly(Created(book, id, op, hold), a)
  {
    assert UserSide(op.(status := Hold), a) && UserSide(op.(status := New), a);
  }

  lemma PaymentUserSide(d: Payment, a: Account)
    requires d.amount > 0
    ensures Untouched(DepositLegs(d), a) || OwnDeposit(d, a) ==> UserSide(DepositOp(d), a)
    ensures Untouched(WithdrawalLegs(d), a) || OwnWithdrawal(d, a) ==> UserSide(WithdrawalOp(d), a)
  {
    DepositMoves(d, a);
    WithdrawalMoves(d, a);
    UntouchedMovesNothing(DepositLegs(d), a);
    UntouchedMovesNothing(WithdrawalLegs(d), a);
  }

  lemma UntouchedMovesNothing(legs: seq<Leg>, a: Account)
    ensures Untouched(legs, a) ==> LegSum(legs, a) == 0
  {
    if Untouched(legs, a) {
      NoLegOnAccount(legs, a);
    }
  }

  lemma ExchangeUserSide(e: Exchange, a: Account)
    requires ExchangeAllowed(e) && (Untouched(ExchangeLegs(e), a) || OwnExchange(e, a))
    ensures UserSide(ExchangeOp(e), a)
  {
    ExchangeMoves(e, a);
    OppositeSigns(e.baseAmount, e.quoteAmount);
    UntouchedMovesNothing(ExchangeLegs(e), a);
  }

  lemma StatusUserSide(book: Book, id: OpId, op: Op, a: Account)
    requires UserSideOnly(book, a) && id in book && op.kind == book[id].kind && op.legs == book[id].legs
    ensures UserSideOnly(book[id := op], a)
  {
    assert UserSide(book[id], a);
  }

  lemma NextUserSide(book: Book, step: Step, a: Account)
    requires UserSideOnly(book, a) && Enabled(book, step) && UserStep(book, step, a)
    ensures UserSideOnly(Next(book, step), a)
  {
    match step {
      case PostDeposit(id, d, hold) =>
        if DepositAllowed(d) {
          PaymentUserSide(d, a);
          CreatedUserSide(book, id, DepositOp(d), hold, a);
        }
      case PostWithdrawal(id, d, hold) =>
        if WithdrawalAllowed(d) {
          PaymentUserSide(d, a);
          CreatedUserSide(book, id, WithdrawalOp(d), hold, a);
        }
      case PostExchange(id, e, hold) =>
        if ExchangeAllowed(e) {
          ExchangeUserSide(e, a);
          CreatedUserSide(book, id, ExchangeOp(e), hold, a);
        }
      case PostRefund(id, depositId, amount, references, hold) =>
        if book[depositId].legs != [] {
          var op := RefundOp(depositId, book[depositId], amount, references);
          UntouchedMovesNothing(op.legs, a);
          CreatedUserSide(book, id, op, hold, a);
        }
      case HoldStep(id) => StatusUserSide(book, id, book[id].(status := Hold), a);
      case CommitStep(id) => StatusUserSide(book, id, book[id].(status := Committed), a);
      case CancelStep(id) => StatusUserSide(book, id, book[id].(status := Cancelled), a);
      case RejectStep(id, reason) => StatusUserSide(book, id, Next(book, step)[id], a);
    }
  }

  lemma {:induction false} RunUserSide(steps: seq<Step>, a: Account)
    requires RunEnabled(map[], steps) && UserRun(steps, a)
    ensures UserSideOnly(Run(map[], steps), a)
  {
    if steps != [] {
      var init, last := steps[..|steps| - 1], steps[|steps| - 1];
      RunUserSide(init, a);
      NextUserSide(Run(map[], init), last, a);
    }
  }

  /** Over every run in which operations touch the account only as the user's own, with arbitrary status
      changes in between and whatever happens on other accounts, a user is never shown more than the
      ledger counts, and the difference is exactly the credits still on hold. */
  lemma {:induction false} DisplayedIsPessimistic(steps: seq<Step>, a: Account)
    requires RunEnabled(map[], steps) && UserRun(steps, a)
    ensures Displayed(Run(map[], steps), a) <= Balance(Run(map[], steps), a, false)
    ensures Balance(Run(map[], steps), a, false)
         == Displayed(Run(map[], steps), a) + Total(Run(map[], steps), HeldCredit(a))
  {
    RunUserSide(steps, a);
    GapIsHeldCredits(Run(map[], steps), a);
  }

  /** Committing a held debit does not move the displayed balance; committing a held credit raises it
      by exactly that credit. */
  lemma CommitShowsHeldCreditOnly(book: Book, id: OpId, a: Account)
    requires id in book && book[id].status == Hold && UserSide(book[id], a)
    ensures Displayed(WithStatus(book, id, Committed), a) == Displayed(book, a) + HeldCredit(a)(book[id])
  {
    BalanceAfterWrite(book, id, book[id].(status := Committed), ShownRule(), a);
  }

  /** Holding a new operation shows its debit at once and its credit not at all, and cancelling it
      restores what was shown before it was created. */
  lemma CancelRestoresDisplayed(book: Book, id: OpId, op: Op, a: Account)
    requires id !in book && UserSide(op, a)
    ensures Displayed(book[id := op.(status := Hold)], a)
         == Displayed(book, a) + (if LegSum(op.legs, a) < 0 then LegSum(op.legs, a) else 0)
    ensures Displayed(WithStatus(book[id := op.(status := Hold)], id, Cancelled), a) == Displayed(book, a)
  {
    var held := book[id := op.(status := Hold)];
    BalanceAfterWrite(book, id, op.(status := Hold), ShownRule(), a);
    BalanceAfterWrite(held, id, op.(status := Cancelled), ShownRule(), a);
  }
}
