/** The changes of status again, on ledgers that a run of calls can reach: the bounds on what may be
    cancelled, rejected and held are exact there too. */
module ReachableLedgers {
  import opened Accounting
  import opened Postings
  import opened LedgerModel
  import opened LedgerRuns
  import opened DisplayedBalance
  import opened FundedRuns

  datatype Change = Cancelling | Rejecting(reason: string) | Holding

  function Apply(c: Change, id: OpId): Step {
    match c
    case Cancelling => CancelStep(id)
    case Rejecting(reason) => RejectStep(id, reason)
    case Holding => HoldStep(id)
  }

  /** How a posted operation got the status it has. */
  datatype Life = LeftNew | WasHeld | WasCommitted | WasCancelled | WasRejected(reason: string)

  function Lived(p: Posting, life: Life): Op {
    var op := Made(p);
    match life
    case LeftNew => op
    case WasHeld => op.(status := Hold)
    case WasCommitted => op.(status := Committed)
    case WasCancelled => op.(status := Cancelled)
    case WasRejected(reason) => op.(status := Deleted, references := op.references[REJECT_REASON_KEY := reason])
  }

  /** On every bounded ledger that a run reaches, the change of the operation keeps the ledger bounded; with
      `settled`, on those without NEW operations. */
  ghost predicate KeepsRunsBounded(op: Op, c: Change, settled: bool) {
    forall steps, book, id ::
      Reaches(steps, book) && id in book && book[id] == op && Bounded(book) && (settled ==> Settled(book)) ==>
      Bounded(Next(book, Apply(c, id)))
  }

  // ----- Building ledgers -----

  lemma Then(before: seq<Step>, book: Book, step: Step) returns (steps: seq<Step>)
    requires Reaches(before, book) && Enabled(book, step)
    ensures Reaches(steps, Next(book, step))
  {
    ReachNext(before, book, step);
    steps := before + [step];
  }

  /** What a row adds to a balance. */
  function Adds(op: Op, includeNew: bool, a: Account): int {
    if op.status in Counted(includeNew) then LegSum(op.legs, a) else 0
  }

  /** Posting an operation that every bounded account can take. */
  lemma PostOp(before: seq<Step>, book: Book, p: Posting, id: OpId, hold: bool) returns (steps: seq<Step>, book': Book)
    requires Reaches(before, book) && id !in book && Creatable(p)
    requires forall a: Account :: a.kind != Normal ==> InBounds(a, Balance(book, a, true) + LegSum(Made(p).legs, a))
    ensures book' == book[id := Made(p).(status := if hold then Hold else New)] && Reaches(steps, book')
    ensures forall a, includeNew ::
      Balance(book', a, includeNew) == Balance(book, a, includeNew) + Adds(book'[id], includeNew, a)
  {
    hide LegSum, Balanced, SignsOk, Balance, Reaches, Acceptable, InBounds, Made, Adds, Create, Enabled, Next, Allowed;
    AcceptedWhenBorne(book, id, Made(p));
    CreateAccepted(book, p, id, hold);
    steps := Then(before, book, Create(p, id, hold));
    book' := book[id := Made(p).(status := if hold then Hold else New)];
    forall a, includeNew
      ensures Balance(book', a, includeNew) == Balance(book, a, includeNew) + Adds(book'[id], includeNew, a)
    {
      RowAdds(book, id, book'[id], includeNew, a);
    }
  }

  lemma RowAdds(book: Book, id: OpId, op: Op, includeNew: bool, a: Account)
    ensures Balance(book[id := op], a, includeNew)
         == Balance(book, a, includeNew) + Adds(op, includeNew, a)
            - (if id in book then Adds(book[id], includeNew, a) else 0)
  {
    BalanceAfterWrite(book, id, op, StatusRule(Counted(includeNew)), a);
  }

  /** Moving an amount on or off one account. */
  lemma PostMove(before: seq<Step>, book: Book, id: OpId, a: Account, amount: int, hold: bool)
    returns (steps: seq<Step>, book': Book)
    requires Reaches(before, book) && id !in book && amount != 0 && !a.strict
    requires forall b: Account :: b.kind != Normal ==> InBounds(b, Balance(book, b, true) + On(a, b, amount))
    ensures Reaches(steps, book') && book'.Keys == book.Keys + {id} && forall i :: i in book ==> book'[i] == book[i]
    ensures book'[id].status == if hold then Hold else New
    ensures forall b: Account, includeNew :: b.kind != Normal ==>
      Balance(book', b, includeNew) == Balance(book, b, includeNew) + if hold || includeNew then On(a, b, amount) else 0
  {
    hide LegSum, Balanced, SignsOk, Balance, Reaches, InBounds, DepositLegs;
    var p := OfDeposit(Moving(a, Reserve(a), amount));
    forall b: Account ensures b.kind != Normal ==> LegSum(Made(p).legs, b) == On(a, b, amount) {
      MovingFacts(a, Reserve(a), amount, b);
    }
    MovingFacts(a, Reserve(a), amount, a);
    steps, book' := PostOp(before, book, p, id, hold);
  }

  /** A ledger on which every account has what the legs need, and nothing more. */
  lemma FundRun(legs: seq<Leg>) returns (steps: seq<Step>, book: Book)
    requires SignsOk(legs)
    ensures Reaches(steps, book) && Funded(book, legs, |legs|)
    ensures forall a: Account, includeNew :: a.kind != Normal ==> Balance(book, a, includeNew) == Funds(legs, a)
  {
    hide Balance, Reaches, UserRun;
    steps, book := FundAll(legs, Account("", Asset("", Fiat, 0), Active, false));
    forall a: Account ensures Balance(book, a, true) == Balance(book, a, false) {
      NoNewSameBalance(book, a);
    }
  }

  lemma ReachedBounded(steps: seq<Step>, book: Book)
    requires Reaches(steps, book) && forall a: Account :: a.kind != Normal ==> InBounds(a, Balance(book, a, false))
    ensures Bounded(book)
  {
    hide Balance;
    RunWellPosted(map[], steps);
    NormalInBounds();
  }

  /** Committing a held operation of a bounded ledger changes no balance. */
  lemma CommitHeld(before: seq<Step>, book: Book, id: OpId) returns (steps: seq<Step>)
    requires Reaches(before, book) && Bounded(book) && id in book && book[id].status == Hold
    ensures Reaches(steps, WithStatus(book, id, Committed))
    ensures forall a, includeNew ::
      Balance(WithStatus(book, id, Committed), a, includeNew) == Balance(book, a, includeNew)
  {
    hide Balance, Reaches;
    steps := Then(before, book, CommitStep(id));
    forall a, includeNew
      ensures Balance(WithStatus(book, id, Committed), a, includeNew) == Balance(book, a, includeNew)
    {
      RowAdds(book, id, book[id].(status := Committed), includeNew, a);
    }
  }

  function Name(n: nat): (id: OpId)
    ensures |id| == n
  {
    seq(n, _ => 'x')
  }

  /** The operation just posted on a ledger that has the funds for it. */
  lemma HeldLedger(p: Posting) returns (steps: seq<Step>, book: Book, id: OpId)
    requires Creatable(p)
    ensures Reaches(steps, book) && id in book && book[id] == Lived(p, WasHeld) && Settled(book)
    ensures forall i :: i in book ==> |i| <= |Made(p).legs| + 1
    ensures forall b: Account, includeNew :: b.kind != Normal ==>
      Balance(book, b, includeNew) == Funds(Made(p).legs, b) + LegSum(Made(p).legs, b)
  {
    hide Balance, Reaches, LegSum, Funds, Balanced, SignsOk, InBounds, Made;
    var legs := Made(p).legs;
    steps, book := FundRun(legs);
    forall b ensures InBounds(b, Funds(legs, b) + LegSum(legs, b)) {
      FundsSuffice(legs, b);
    }
    id := Name(|legs| + 1);
    steps, book := PostOp(steps, book, p, id, true);
  }

  /** The live operation on a ledger that just bears it. */
  lemma LiveLedger(p: Posting, life: Life) returns (steps: seq<Step>, book: Book, id: OpId)
    requires Creatable(p) && (life == WasHeld || life == WasCommitted)
    ensures Reaches(steps, book) && Bounded(book) && Settled(book) && id in book && book[id] == Lived(p, life)
    ensures forall i :: i in book ==> |i| <= |Made(p).legs| + 1
    ensures forall a: Account :: Balance(book, a, true) == Balance(book, a, false)
  {
    hide Balance, Reaches, LegSum, Funds, Balanced, SignsOk, Made;
    steps, book, id := HeldLedger(p);
    forall a ensures InBounds(a, Funds(Made(p).legs, a) + LegSum(Made(p).legs, a)) {
      FundsSuffice(Made(p).legs, a);
    }
    ReachedBounded(steps, book);
    if life == WasCommitted {
      steps := CommitHeld(steps, book, id);
      book := WithStatus(book, id, Committed);
      ReachedBounded(steps, book);
    }
    forall a: Account ensures Balance(book, a, true) == Balance(book, a, false) {
      NoNewSameBalance(book, a);
    }
  }

  /** The same with the account emptied. */
  lemma EmptiedLedger(p: Posting, life: Life, a: Account) returns (steps: seq<Step>, book: Book, id: OpId)
    requires Creatable(p) && (life == WasHeld || life == WasCommitted) && a.kind != Normal && !a.strict
    ensures Reaches(steps, book) && Bounded(book) && Settled(book) && id in book && book[id] == Lived(p, life)
    ensures Balance(book, a, false) == 0
  {
    hide Balance, Reaches, Lived, Made;
    steps, book, id := LiveLedger(p, life);
    var left := Balance(book, a, false);
    if left != 0 {
      assert forall b: Account :: b.kind != Normal ==> InBounds(b, Balance(book, b, false));
      steps, book := PostMove(steps, book, Name(|Made(p).legs| + 2), a, -left, true);
      ReachedBounded(steps, book);
    }
  }

  /** Cancelling or rejecting a deposit, a withdrawal or an exchange, whatever became of it, keeps every
      reachable ledger within bounds if and only if it does not count or is safe to drop. */
  lemma CancelIsSafeOnRunsIff(p: Posting, life: Life, c: Change, settled: bool)
    requires Creatable(p) && !c.Holding?
    ensures KeepsRunsBounded(Lived(p, life), c, settled)
       <==> !IsLive(Lived(p, life).status) || SafeToDrop(Lived(p, life))
  {
    hide Balance, SafeToDrop, Reaches, Next, Bounded, Balanced, SignsOk;
    var op := Lived(p, life);
    if !IsLive(op.status) || SafeToDrop(op) {
      forall steps, book, id | Reaches(steps, book) && id in book && book[id] == op && Bounded(book)
        ensures Bounded(Next(book, Apply(c, id)))
      {
        CancelIsSafeIff(op, Apply(c, id), false);
      }
    } else {
      CancelBreaks(p, life, c, settled);
    }
  }

  lemma CancelBreaks(p: Posting, life: Life, c: Change, settled: bool)
    requires Creatable(p) && !c.Holding? && IsLive(Lived(p, life).status) && !SafeToDrop(Lived(p, life))
    ensures !KeepsRunsBounded(Lived(p, life), c, settled)
  {
    hide Balance, LegSum, Reaches, Bounded, Settled, Creatable, Next, KeepsRunsBounded, Made;
    var op := Lived(p, life);
    var leg :| leg in op.legs && !leg.account.strict && !InBounds(leg.account, -LegSum(op.legs, leg.account));
    var a := leg.account;
    var steps, book, id := EmptiedLedger(p, life, a);
    DropTakes(book, Apply(c, id), a);
    NotKept(steps, book, id, c, settled, a);
  }

  /** One reachable ledger that the change takes out of bounds. */
  lemma NotKept(steps: seq<Step>, book: Book, id: OpId, c: Change, settled: bool, a: Account)
    requires Reaches(steps, book) && id in book && Bounded(book) && (settled ==> Settled(book))
    requires !InBounds(a, Balance(Next(book, Apply(c, id)), a, false))
    ensures !KeepsRunsBounded(book[id], c, settled)
  {
    hide Balance, Reaches, Settled, Next;
    assert !Bounded(Next(book, Apply(c, id)));
  }

  /** Cancelling or rejecting the operation takes its part from the balances. */
  lemma DropHeld(before: seq<Step>, book: Book, id: OpId, c: Change) returns (steps: seq<Step>, book': Book)
    requires Reaches(before, book) && id in book && book[id].status == Hold && !c.Holding?
    ensures book' == Next(book, Apply(c, id)) && Reaches(steps, book')
    ensures forall a, includeNew ::
      Balance(book', a, includeNew) == Balance(book, a, includeNew) - LegSum(book[id].legs, a)
  {
    hide Balance, Reaches, LegSum;
    steps := Then(before, book, Apply(c, id));
    book' := Next(book, Apply(c, id));
    assert book' == book[id := book'[id]];
    forall a, includeNew
      ensures Balance(book', a, includeNew) == Balance(book, a, includeNew) - LegSum(book[id].legs, a)
    {
      RowAdds(book, id, book'[id], includeNew, a);
    }
  }

  lemma NewAlone(p: Posting) returns (steps: seq<Step>, book: Book, id: OpId)
    requires Creatable(p)
    ensures Reaches(steps, book) && id in book && book[id] == Lived(p, LeftNew)
    ensures forall i :: i in book ==> |i| <= |Made(p).legs| + 1
    ensures forall b: Account, includeNew :: b.kind != Normal ==>
      Balance(book, b, includeNew) == Funds(Made(p).legs, b) + if includeNew then LegSum(Made(p).legs, b) else 0
  {
    hide Balance, Reaches, LegSum, Funds, Balanced, SignsOk, InBounds, Made;
    var legs := Made(p).legs;
    steps, book := FundRun(legs);
    forall b ensures InBounds(b, Funds(legs, b) + LegSum(legs, b)) {
      FundsSuffice(legs, b);
    }
    id := Name(|legs| + 1);
    steps, book := PostOp(steps, book, p, id, false);
  }

  /** The operation left NEW beside a NEW credit that makes up for it on the account. */
  lemma NewLedger(p: Posting, a: Account) returns (steps: seq<Step>, book: Book, id: OpId)
    requires Creatable(p) && a.kind != Normal && !a.strict && !InBounds(a, LegSum(Made(p).legs, a))
    ensures Reaches(steps, book) && id in book && book[id] == Lived(p, LeftNew)
    ensures forall i :: i in book ==> |i| <= |Made(p).legs| + 2
    ensures Balance(book, a, false) == Funds(Made(p).legs, a) == Balance(book, a, true)
    ensures forall b: Account, includeNew :: b.kind != Normal ==> InBounds(b, Balance(book, b, includeNew))
  {
    hide Balance, Reaches, LegSum, Funds, InBounds, Creatable, Made;
    var legs := Made(p).legs;
    steps, book, id := NewAlone(p);
    forall b ensures InBounds(b, Funds(legs, b)) && InBounds(b, Funds(legs, b) + LegSum(legs, b)) {
      FundsSuffice(legs, b);
    }
    ZeroInBounds();
    steps, book := PostMove(steps, book, Name(|legs| + 2), a, -LegSum(legs, a), false);
  }

  lemma ZeroInBounds()
    ensures forall a: Account :: InBounds(a, 0)
  {
  }

  /** The operation held and then dropped again. */
  lemma DroppedLedger(p: Posting, life: Life) returns (steps: seq<Step>, book: Book, id: OpId)
    requires Creatable(p) && (life == WasCancelled || life.WasRejected?)
    ensures Reaches(steps, book) && id in book && book[id] == Lived(p, life) && Settled(book)
    ensures forall i :: i in book ==> |i| <= |Made(p).legs| + 1
    ensures forall b: Account, includeNew :: b.kind != Normal ==> Balance(book, b, includeNew) == Funds(Made(p).legs, b)
  {
    hide Balance, Reaches, LegSum, Funds, Creatable, Made;
    steps, book, id := HeldLedger(p);
    steps, book := DropHeld(steps, book, id, if life == WasCancelled then Cancelling else Rejecting(life.reason));
  }

  /** The operation does not count, its account is empty, and holding it passes the check. */
  lemma RevivableLedger(p: Posting, life: Life, a: Account) returns (steps: seq<Step>, book: Book, id: OpId)
    requires Creatable(p) && life != WasHeld && life != WasCommitted
    requires a.kind != Normal && !a.strict && !InBounds(a, LegSum(Made(p).legs, a))
    ensures Reaches(steps, book) && Bounded(book) && (life != LeftNew ==> Settled(book))
    ensures id in book && book[id] == Lived(p, life) && Valid(book, Made(p).legs, true) && Balance(book, a, false) == 0
  {
    hide Balance, Reaches, LegSum, Funds, Balanced, SignsOk, Made;
    var legs := Made(p).legs;
    FundsSuffice(legs, a);
    forall b ensures InBounds(b, Funds(legs, b)) {
      FundsSuffice(legs, b);
    }
    if life == LeftNew {
      steps, book, id := NewLedger(p, a);
    } else {
      steps, book, id := DroppedLedger(p, life);
    }
    steps, book := PostMove(steps, book, Name(|legs| + 3), a, -Funds(legs, a), true);
    ReachedBounded(steps, book);
    NormalInBounds();
  }

  lemma HoldBreaks(p: Posting, life: Life, settled: bool)
    requires Creatable(p) && (settled ==> life != LeftNew)
    requires !IsLive(Lived(p, life).status) && !SafeToRevive(Lived(p, life))
    ensures !KeepsRunsBounded(Lived(p, life), Holding, settled)
  {
    hide Balance, LegSum, Reaches, Bounded, Settled, Valid, Balanced, KeepsRunsBounded, Made;
    var op := Lived(p, life);
    var leg :| leg in op.legs && !InBounds(leg.account, LegSum(op.legs, leg.account));
    var a := leg.account;
    StrictInBounds(op.legs, a);
    var steps, book, id := RevivableLedger(p, life, a);
    HoldAdds(book, id, a);
    NotKept(steps, book, id, Holding, settled, a);
  }

  lemma StrictInBounds(legs: seq<Leg>, a: Account)
    requires SignsOk(legs)
    ensures a.strict ==> InBounds(a, LegSum(legs, a))
  {
    if a.strict {
      StrictLegSum(legs, a);
    }
  }

  /** Holding a deposit, a withdrawal or an exchange, whatever became of it, keeps every reachable ledger
      within bounds if and only if it counts already or moves no account out of its bound on its own. */
  lemma HoldIsSafeOnRunsIff(p: Posting, life: Life, settled: bool)
    requires Creatable(p) && (settled ==> life != LeftNew)
    ensures KeepsRunsBounded(Lived(p, life), Holding, settled)
       <==> IsLive(Lived(p, life).status) || SafeToRevive(Lived(p, life))
  {
    hide Balance, SafeToRevive, Reaches, Valid, Lived, Bounded;
    var op := Lived(p, life);
    if IsLive(op.status) || SafeToRevive(op) {
      forall steps, book, id | Reaches(steps, book) && id in book && book[id] == op && Bounded(book)
        ensures Bounded(Next(book, Apply(Holding, id)))
      {
        HeldBounded(book, id);
      }
    } else {
      HoldBreaks(p, life, settled);
    }
  }
}
