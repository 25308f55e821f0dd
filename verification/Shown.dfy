/** Which postings leave a user shown no more than the ledger counts: the bounds on fees and assets are
    exact. */
module ShownExactly {
  import opened Accounting
  import opened Postings
  import opened LedgerModel
  import opened LedgerRuns
  import opened DisplayedBalance
  import opened FundedRuns

  /** The account is shown no more than is counted. */
  ghost predicate ShownWithin(book: Book, a: Account) {
    Displayed(book, a) <= Balance(book, a, false)
  }

  /** After any run in which the account is used as a user's own, the posting is made without the user being
      shown more than the ledger counts. */
  ghost predicate ShownSafely(p: Posting, a: Account) {
    forall steps, book, id :: UserReaches(steps, book, a) && id !in book ==>
      ShownWithin(Next(book, Create(p, id, true)), a)
  }

  /** While held, the operation is shown on accounts of the asset. */
  predicate ShownHeld(p: Posting, asset: Asset) {
    ShownRule()(Made(p).(status := Hold), asset)
  }

  /** Holding an operation opens a gap exactly when it is a debit that is not shown. */
  lemma HeldShownIff(book: Book, id: OpId, p: Posting, a: Account)
    requires id !in book
    ensures ShownWithin(book, a) && (LegSum(Made(p).legs, a) >= 0 || ShownHeld(p, a.asset))
        ==> ShownWithin(book[id := Made(p).(status := Hold)], a)
    ensures Displayed(book, a) == Balance(book, a, false) && LegSum(Made(p).legs, a) < 0 && !ShownHeld(p, a.asset)
        ==> !ShownWithin(book[id := Made(p).(status := Hold)], a)
  {
    var held := Made(p).(status := Hold);
    BalanceAfterWrite(book, id, held, ShownRule(), a);
    BalanceAfterWrite(book, id, held, StatusRule(Counted(false)), a);
  }

  /** A refused call changes nothing. */
  lemma CreateRefused(book: Book, p: Posting, id: OpId)
    requires id !in book && !(Allowed(p) && Acceptable(book, id, Made(p)))
    ensures Next(book, Create(p, id, true)) == book
  {
    hide Acceptable;
  }

  lemma SafePostings(p: Posting, a: Account)
    requires Creatable(p) ==> LegSum(Made(p).legs, a) >= 0 || ShownHeld(p, a.asset)
    ensures ShownSafely(p, a)
  {
    hide LegSum, Displayed, Balance, ShownHeld, Balanced, SignsOk, Reaches, Made;
    forall steps, book, id | UserReaches(steps, book, a) && id !in book
      ensures ShownWithin(Next(book, Create(p, id, true)), a)
    {
      ReachedShown(steps, book, a);
      if Allowed(p) && Acceptable(book, id, Made(p)) {
        CreateAccepted(book, p, id, true);
        HeldShownIff(book, id, p, a);
      } else {
        CreateRefused(book, p, id);
      }
    }
  }

  lemma ReachedShown(steps: seq<Step>, book: Book, a: Account)
    requires UserReaches(steps, book, a)
    ensures ShownWithin(book, a)
  {
    DisplayedIsPessimistic(steps, a);
  }

  /** A run of committed deposits after which the posting is accepted and opens the gap. */
  lemma UnshownDebitIsAccepted(p: Posting, a: Account) returns (steps: seq<Step>, book: Book, id: OpId)
    requires Creatable(p) && a.kind == Active && LegSum(Made(p).legs, a) < 0 && !ShownHeld(p, a.asset)
    ensures UserReaches(steps, book, a) && id !in book
    ensures !ShownWithin(Next(book, Create(p, id, true)), a)
  {
    hide LegSum, Funds, Balanced, SignsOk, Acceptable, Valid, UserReaches, Displayed, Balance, ShownHeld, Made,
         ShownWithin;
    var legs := Made(p).legs;
    steps, book := FundAll(legs, a);
    id := seq(|legs| + 1, _ => 'x');
    forall b ensures InBounds(b, Funds(legs, b) + LegSum(legs, b)) {
      FundsSuffice(legs, b);
    }
    FundedAccepts(book, legs, |legs|, id, Made(p));
    FundedShown(book, legs, |legs|, a);
    CreateAccepted(book, p, id, true);
    HeldShownIff(book, id, p, a);
  }

  /** On every ledger that a run can reach, a deposit, a withdrawal or an exchange leaves the user shown no more
      than what is counted if and only if it does not debit the account, or is shown while held, or is never
      accepted at all. */
  lemma ShownSafelyIff(p: Posting, a: Account)
    requires a.kind == Active
    ensures ShownSafely(p, a) <==> !Creatable(p) || LegSum(Made(p).legs, a) >= 0 || ShownHeld(p, a.asset)
  {
    hide Creatable, LegSum, ShownHeld, UserReaches, Made;
    if Creatable(p) && LegSum(Made(p).legs, a) < 0 && !ShownHeld(p, a.asset) {
      var steps, book, id := UnshownDebitIsAccepted(p, a);
    } else {
      SafePostings(p, a);
    }
  }

  // ----- What that means for each posting -----

  /** A deposit exactly when its fee does not exceed its amount. */
  lemma DepositShownSafelyIff(d: Payment)
    requires OnlyUser(d, d.user) && d.user.kind == Active
    ensures ShownSafely(OfDeposit(d), d.user) <==> !Creatable(OfDeposit(d)) || d.Fee() <= d.amount
  {
    hide Creatable, LegSum, DepositLegs;
    ShownSafelyIff(OfDeposit(d), d.user);
    DepositMoves(d, d.user);
  }

  /** A withdrawal always. */
  lemma WithdrawalShownSafely(d: Payment, a: Account)
    requires a.kind == Active
    ensures ShownSafely(OfWithdrawal(d), a)
  {
    hide Creatable, LegSum;
    ShownSafelyIff(OfWithdrawal(d), a);
  }

  /** An exchange, on the base account, exactly when it buys or the base asset is crypto. */
  lemma BaseShownSafelyIff(e: Exchange)
    requires OnlyTrades(e, e.base) && e.base != e.quote && e.base.kind == Active
    ensures ShownSafely(OfExchange(e), e.base)
       <==> !Creatable(OfExchange(e)) || e.baseAmount > 0 || e.base.asset.kind == Crypto
  {
    hide Balanced, SignsOk, LegSum, ExchangeLegs;
    ShownSafelyIff(OfExchange(e), e.base);
    ExchangeMoves(e, e.base);
    ExchangeSigns(e);
  }

  /** And on the quote account, exactly when a purchase is paid in fiat, and a sale brings at least its fee
      or is paid out in crypto. */
  lemma QuoteShownSafelyIff(e: Exchange)
    requires OnlyTrades(e, e.quote) && e.base != e.quote && e.quote.kind == Active
    ensures ShownSafely(OfExchange(e), e.quote) <==>
      || !Creatable(OfExchange(e))
      || if e.baseAmount > 0 then e.quote.asset.kind == Fiat
         else e.feeAmount <= e.quoteAmount || e.quote.asset.kind == Crypto
  {
    hide Balanced, SignsOk, LegSum, ExchangeLegs;
    ShownSafelyIff(OfExchange(e), e.quote);
    ExchangeMoves(e, e.quote);
    ExchangeSigns(e);
  }

  lemma ExchangeSigns(e: Exchange)
    ensures ExchangeAllowed(e) ==> (if e.baseAmount > 0 then e.quoteAmount < 0 else e.baseAmount < 0 < e.quoteAmount)
  {
    if ExchangeAllowed(e) {
      OppositeSigns(e.baseAmount, e.quoteAmount);
    }
  }
}
