/** Runs of deposits that fund accounts: for any legs there is a ledger on which they can be posted. */
module FundedRuns {
  import opened Sums
  import opened Accounting
  import opened Postings
  import opened LedgerModel
  import opened LedgerRuns
  import opened DisplayedBalance

  /** What has to be on an account beforehand so that every single leg on it can be posted. */
  function Funds(legs: seq<Leg>, a: Account): int {
    if legs == [] then 0
    else
      var last := legs[|legs| - 1];
      Funds(legs[..|legs| - 1], a) - if last.account == a && !InBounds(a, last.amount) then last.amount else 0
  }

  lemma {:induction false} FundsSuffice(legs: seq<Leg>, a: Account)
    ensures InBounds(a, Funds(legs, a)) && InBounds(a, Funds(legs, a) + LegSum(legs, a))
  {
    if legs != [] {
      FundsSuffice(legs[..|legs| - 1], a);
    }
  }

  /** The deposit that funds one leg. */
  function Funding(leg: Leg): Payment { Moving(leg.account, Reserve(leg.account), -leg.amount) }

  lemma FundingFacts(leg: Leg, a: Account)
    requires !InBounds(leg.account, leg.amount) && !leg.account.strict
    ensures DepositAllowed(Funding(leg)) && Balanced(DepositLegs(Funding(leg))) && SignsOk(DepositLegs(Funding(leg)))
    ensures a.kind != Normal ==> LegSum(DepositLegs(Funding(leg)), a) == On(leg.account, a, -leg.amount)
    ensures a.kind == Active ==> Untouched(DepositLegs(Funding(leg)), a) || OwnDeposit(Funding(leg), a)
  {
    hide LegSum, DepositLegs, Balanced, SignsOk;
    MovingFacts(leg.account, Reserve(leg.account), -leg.amount, a);
  }

  /** Only committed deposits, under names of at most `n` characters, and the funds for `legs`. */
  ghost predicate Funded(book: Book, legs: seq<Leg>, n: nat) {
    && (forall id :: id in book ==> book[id].kind == Deposit && book[id].status == Committed && |id| <= n)
    && (forall a: Account :: a.kind != Normal ==> Balance(book, a, false) == Funds(legs, a))
  }

  /** On a funded ledger an operation that balances and keeps the sign rule is accepted and can be
      committed. */
  lemma FundedAccepts(book: Book, legs: seq<Leg>, n: nat, id: OpId, op: Op)
    requires Funded(book, legs, n) && id !in book && Balanced(op.legs) && SignsOk(op.legs)
    requires forall leg :: leg in op.legs ==>
      InBounds(leg.account, Funds(legs, leg.account) + LegSum(op.legs, leg.account))
    ensures Acceptable(book, id, op) && Valid(book[id := op.(status := Hold)], op.legs, false)
  {
    hide LegSum, Funds, Balanced, SignsOk, InBounds;
    forall a: Account
      ensures Balance(book, a, true) == Balance(book, a, false)
      ensures Balance(book[id := op.(status := Hold)], a, false) == Balance(book, a, false) + LegSum(op.legs, a)
    {
      NoNewSameBalance(book, a);
      BalanceAfterWrite(book, id, op.(status := Hold), StatusRule(Counted(false)), a);
    }
    AcceptableIff(book, id, op);
    NormalInBounds();
  }

  lemma NormalInBounds()
    ensures forall a: Account, balance :: a.kind == Normal ==> InBounds(a, balance)
  {
  }

  /** Posting and committing a deposit that passes both checks. */
  lemma PostAndCommit(before: seq<Step>, book: Book, id: OpId, d: Payment, a: Account) returns (steps: seq<Step>)
    requires UserReaches(before, book, a) && id !in book
    requires DepositAllowed(d) && (Untouched(DepositLegs(d), a) || OwnDeposit(d, a))
    requires Acceptable(book, id, DepositOp(d))
    requires Valid(book[id := DepositOp(d).(status := Hold)], DepositLegs(d), false)
    ensures UserReaches(steps, book[id := DepositOp(d).(status := Committed)], a)
  {
    hide Acceptable, Valid, UserReaches, DepositLegs, Untouched, OwnDeposit, DepositAllowed;
    var held := book[id := DepositOp(d).(status := Hold)];
    UserReachNext(before, book, PostDeposit(id, d, true), a);
    steps := before + [PostDeposit(id, d, true)];
    UserReachNext(steps, held, CommitStep(id), a);
    steps := steps + [CommitStep(id)];
    assert held[id := DepositOp(d).(status := Committed)] == book[id := DepositOp(d).(status := Committed)];
  }

  /** The funding of one more leg. */
  lemma FundOne(before: seq<Step>, book: Book, legs: seq<Leg>, leg: Leg, n: nat, a: Account)
    returns (steps: seq<Step>, book': Book)
    requires UserReaches(before, book, a) && Funded(book, legs, n)
    requires !InBounds(leg.account, leg.amount) && !leg.account.strict && a.kind == Active
    ensures UserReaches(steps, book', a) && Funded(book', legs + [leg], n + 1)
  {
    hide LegSum, Funds, Balanced, SignsOk, Acceptable, Valid, UserReaches, DepositLegs, Funding,
         DepositAllowed, Untouched, OwnDeposit, Balance;
    var d, id := Funding(leg), seq(n + 1, _ => 'x');
    forall b: Account
      ensures InBounds(b, Funds(legs, b) + LegSum(DepositLegs(d), b))
    {
      FundingFacts(leg, b);
      FundsSuffice(legs, b);
    }
    FundingFacts(leg, a);
    FundedAccepts(book, legs, n, id, DepositOp(d));
    steps := PostAndCommit(before, book, id, d, a);
    book' := book[id := DepositOp(d).(status := Committed)];
    FundedMore(book, legs, leg, n, id);
  }

  lemma FundedMore(book: Book, legs: seq<Leg>, leg: Leg, n: nat, id: OpId)
    requires Funded(book, legs, n) && id !in book && |id| == n + 1
    requires !InBounds(leg.account, leg.amount) && !leg.account.strict
    ensures Funded(book[id := DepositOp(Funding(leg)).(status := Committed)], legs + [leg], n + 1)
  {
    hide LegSum, Funding, DepositLegs;
    var op := DepositOp(Funding(leg)).(status := Committed);
    assert (legs + [leg])[..|legs|] == legs;
    forall b: Account | b.kind != Normal ensures Balance(book[id := op], b, false) == Funds(legs + [leg], b) {
      FundingFacts(leg, b);
      BalanceAfterWrite(book, id, op, StatusRule(Counted(false)), b);
    }
  }

  lemma NothingFunded(a: Account)
    ensures UserReaches([], map[], a) && Funded(map[], [], 0)
  {
    var none: Book := map[];
    forall b: Account ensures Balance(none, b, false) == 0 {
      TotalZero(none, LegWeight(StatusRule(Counted(false)), b));
    }
  }

  /** A leg that needs no funds. */
  lemma FundNothing(book: Book, legs: seq<Leg>, leg: Leg, n: nat)
    requires Funded(book, legs, n) && InBounds(leg.account, leg.amount)
    ensures Funded(book, legs + [leg], n + 1)
  {
    assert (legs + [leg])[..|legs|] == legs;
  }

  /** Every account can be funded for the legs by a run of committed deposits. */
  lemma {:induction false} FundAll(legs: seq<Leg>, a: Account) returns (steps: seq<Step>, book: Book)
    requires SignsOk(legs) && a.kind == Active
    ensures UserReaches(steps, book, a) && Funded(book, legs, |legs|)
  {
    hide UserReaches, Funded;
    if legs == [] {
      steps, book := [], map[];
      NothingFunded(a);
    } else {
      var init, last := legs[..|legs| - 1], legs[|legs| - 1];
      assert last in legs && init + [last] == legs && SignOk(last);
      steps, book := FundAll(init, a);
      if InBounds(last.account, last.amount) {
        FundNothing(book, init, last, |init|);
      } else {
        steps, book := FundOne(steps, book, init, last, |init|, a);
      }
    }
  }

  /** Committed deposits are counted and shown alike. */
  lemma FundedShown(book: Book, legs: seq<Leg>, n: nat, a: Account)
    requires Funded(book, legs, n)
    ensures Displayed(book, a) == Balance(book, a, false)
  {
    TotalSame(book, LegWeight(ShownRule(), a), LegWeight(StatusRule(Counted(false)), a));
  }
}
