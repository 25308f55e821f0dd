/** Whole runs of the ledger: what any sequence of manager calls keeps. */
module LedgerRuns {
  import opened Common
  import opened Sums
  import opened Accounting
  import opened Postings
  import opened LedgerModel

  datatype Step =
    | PostDeposit(id: OpId, deposit: Payment, hold: bool)
    | PostWithdrawal(id: OpId, withdrawal: Payment, hold: bool)
    | PostExchange(id: OpId, exchange: Exchange, hold: bool)
    | PostRefund(id: OpId, depositId: OpId, amount: int, references: Option<map<string, string>>, hold: bool)
    | HoldStep(id: OpId)
    | CommitStep(id: OpId)
    | CancelStep(id: OpId)
    | RejectStep(id: OpId, reason: string)

  /** Creation draws a fresh identifier; the other calls are made on an existing operation. */
  ghost predicate Enabled(book: Book, step: Step) {
    match step
    case PostDeposit(id, _, _) => id !in book
    case PostWithdrawal(id, _, _) => id !in book
    case PostExchange(id, _, _) => id !in book
    case PostRefund(id, depositId, _, _, _) => id !in book && depositId in book
    case _ => step.id in book
  }

  /** The effect of one call, raised exceptions included. */
  ghost function Next(book: Book, step: Step): Book
    requires Enabled(book, step)
  {
    match step
    case PostDeposit(id, d, hold) => if DepositAllowed(d) then Created(book, id, DepositOp(d), hold) else book
    case PostWithdrawal(id, d, hold) => if WithdrawalAllowed(d) then Created(book, id, WithdrawalOp(d), hold) else book
    case PostExchange(id, e, hold) => if ExchangeAllowed(e) then Created(book, id, ExchangeOp(e), hold) else book
    case PostRefund(id, depositId, amount, references, hold) =>
      var deposit := book[depositId];
      if deposit.status == Committed && deposit.legs != []
      then Created(book, id, RefundOp(depositId, deposit, amount, references), hold)
      else book
    case HoldStep(id) => if Valid(book, book[id].legs, true) then WithStatus(book, id, Hold) else book
    case CommitStep(id) =>
      if book[id].status == Hold && Valid(book, book[id].legs, false) then WithStatus(book, id, Committed) else book
    case CancelStep(id) => WithStatus(book, id, Cancelled)
    case RejectStep(id, reason) =>
      book[id := book[id].(status := Deleted, references := book[id].references[REJECT_REASON_KEY := reason])]
  }

  ghost predicate RunEnabled(book: Book, steps: seq<Step>)
    decreases steps, 0
  {
    steps == [] ||
    var init := steps[..|steps| - 1];
    RunEnabled(book, init) && Enabled(Run(book, init), steps[|steps| - 1])
  }

  ghost function Run(book: Book, steps: seq<Step>): Book
    requires RunEnabled(book, steps)
    decreases steps, 1
  {
    if steps == [] then book
    else Next(Run(book, steps[..|steps| - 1]), steps[|steps| - 1])
  }

  lemma ExtendRun(book: Book, steps: seq<Step>, step: Step)
    requires RunEnabled(book, steps) && Enabled(Run(book, steps), step)
    ensures RunEnabled(book, steps + [step]) && Run(book, steps + [step]) == Next(Run(book, steps), step)
  {
    assert (steps + [step])[..|steps|] == steps;
  }

  /** The steps lead from the empty ledger to the book. */
  ghost predicate Reaches(steps: seq<Step>, book: Book) {
    RunEnabled(map[], steps) && Run(map[], steps) == book
  }

  lemma ReachNext(steps: seq<Step>, book: Book, step: Step)
    requires Reaches(steps, book) && Enabled(book, step)
    ensures Reaches(steps + [step], Next(book, step))
  {
    ExtendRun(map[], steps, step);
  }

  /** The imperative ledger performs exactly these steps. */
  method Perform(ledger: Ledger, step: Step)
    requires Enabled(ledger.book, step)
    modifies ledger
    ensures ledger.book == Next(old(ledger.book), step)
  {
    match step {
      case PostDeposit(id, d, hold) => var _ := ledger.CreateDeposit(id, d, hold);
      case PostWithdrawal(id, d, hold) => var _ := ledger.CreateWithdrawal(id, d, hold);
      case PostExchange(id, e, hold) => var _ := ledger.CreateExchange(id, e, hold);
      case PostRefund(id, depositId, amount, references, hold) =>
        var _ := ledger.CreateRefund(id, depositId, amount, references, hold);
      case HoldStep(id) => var _ := ledger.HoldOperation(id);
      case CommitStep(id) => var _ := ledger.Commit(id);
      case CancelStep(id) => ledger.Cancel(id);
      case RejectStep(id, reason) => ledger.Reject(id, reason);
    }
  }

  // ----- Conservation and strict accounts -----

  lemma NextWellPosted(book: Book, step: Step)
    requires WellPosted(book) && Enabled(book, step)
    ensures WellPosted(Next(book, step))
  {
  }

  lemma {:induction false} RunWellPosted(book: Book, steps: seq<Step>)
    requires WellPosted(book) && RunEnabled(book, steps)
    ensures WellPosted(Run(book, steps))
  {
    if steps != [] {
      RunWellPosted(book, steps[..|steps| - 1]);
      NextWellPosted(Run(book, steps[..|steps| - 1]), steps[|steps| - 1]);
    }
  }

  /** Over every run from the empty ledger, accepted and refused calls alike, the balances of the
      accounts of an asset sum to zero under every counting rule. */
  lemma Conservation(steps: seq<Step>, rule: Rule, asset: Asset, accounts: set<Account>)
    requires RunEnabled(map[], steps) && Covers(accounts, asset, Run(map[], steps))
    ensures SetSum(accounts, Balances(Run(map[], steps), rule)) == 0
  {
    RunWellPosted(map[], steps);
    BalancesSumToZero(Run(map[], steps), rule, asset, accounts);
  }

  /** A strict account is safe in every reachable state, for every choice of counted statuses. */
  lemma StrictAccountsAreSafe(steps: seq<Step>, a: Account, statuses: set<Status>)
    requires RunEnabled(map[], steps) && a.strict
    ensures InBounds(a, BalanceBy(Run(map[], steps), StatusRule(statuses), a))
  {
    RunWellPosted(map[], steps);
    CountedStrictInBounds(Run(map[], steps), a, statuses);
  }

  // ----- When is an operation accepted -----

  /** An operation is accepted exactly when its legs balance and keep the sign rule and every account
      it touches can take the net movement on top of everything already counted. */
  lemma AcceptableIff(book: Book, id: OpId, op: Op)
    requires id !in book
    ensures Acceptable(book, id, op) <==>
      && Balanced(op.legs)
      && SignsOk(op.legs)
      && forall leg :: leg in op.legs ==>
           InBounds(leg.account, Balance(book, leg.account, true) + LegSum(op.legs, leg.account))
  {
    var posted := op.(status := New);
    forall a ensures Balance(book[id := posted], a, true) == Balance(book, a, true) + LegSum(op.legs, a) {
      BalanceAfterWrite(book, id, posted, StatusRule(Counted(true)), a);
    }
  }

  /** An operation that balances, and whose accounts end within bounds, is accepted exactly when no leg of it
      takes from a strict active account or gives to a strict passive one: a leg the other way is fine. */
  lemma AcceptedUnlessStrictnessBroken(book: Book, id: OpId, op: Op)
    requires id !in book && Balanced(op.legs)
    requires forall leg :: leg in op.legs ==>
      && (leg.account.kind == Active ==> Balance(book, leg.account, true) + LegSum(op.legs, leg.account) >= 0)
      && (leg.account.kind == Passive ==> Balance(book, leg.account, true) + LegSum(op.legs, leg.account) <= 0)
    ensures Acceptable(book, id, op) <==> forall leg :: leg in op.legs ==> !BreaksStrictness(leg)
  {
    hide LegSum, Balanced, Balance, Acceptable;
    AcceptableIff(book, id, op);
    forall leg | leg in op.legs ensures SignOk(leg) <==> !BreaksStrictness(leg) {
      SignOkIff(leg);
    }
  }

  /** In particular when every bounded account can take the net movement. */
  lemma AcceptedWhenBorne(book: Book, id: OpId, op: Op)
    requires id !in book && Balanced(op.legs) && SignsOk(op.legs)
    requires forall a: Account :: a.kind != Normal ==> InBounds(a, Balance(book, a, true) + LegSum(op.legs, a))
    ensures Acceptable(book, id, op)
  {
    hide LegSum, Balanced, SignsOk, Balance, Acceptable;
    AcceptableIff(book, id, op);
  }

  // ----- The three postings alike -----

  datatype Posting = OfDeposit(deposit: Payment) | OfWithdrawal(withdrawal: Payment) | OfExchange(exchange: Exchange)

  /** The operation of a posting, and the call that creates it. */
  function Made(p: Posting): (op: Op)
    ensures op.status == New
  {
    match p
    case OfDeposit(d) => DepositOp(d)
    case OfWithdrawal(d) => WithdrawalOp(d)
    case OfExchange(e) => ExchangeOp(e)
  }

  function Create(p: Posting, id: OpId, hold: bool): Step {
    match p
    case OfDeposit(d) => PostDeposit(id, d, hold)
    case OfWithdrawal(d) => PostWithdrawal(id, d, hold)
    case OfExchange(e) => PostExchange(id, e, hold)
  }

  predicate Allowed(p: Posting) {
    match p
    case OfDeposit(d) => DepositAllowed(d)
    case OfWithdrawal(d) => WithdrawalAllowed(d)
    case OfExchange(e) => ExchangeAllowed(e)
  }

  /** The call can be accepted on some ledger. */
  predicate Creatable(p: Posting) {
    Allowed(p) && Balanced(Made(p).legs) && SignsOk(Made(p).legs)
  }

  lemma CreateAccepted(book: Book, p: Posting, id: OpId, hold: bool)
    requires id !in book && Allowed(p) && Acceptable(book, id, Made(p))
    ensures Enabled(book, Create(p, id, hold))
    ensures Next(book, Create(p, id, hold)) == book[id := Made(p).(status := if hold then Hold else New)]
  {
    hide Acceptable;
  }

  // ----- No overdraft over sequential runs -----

  /** Every account is within bounds by what is held and committed. */
  ghost predicate Bounded(book: Book) {
    WellPosted(book) && forall a :: InBounds(a, Balance(book, a, false))
  }

  /** Every operation has left the NEW status. */
  predicate Settled(book: Book) {
    forall id :: id in book ==> book[id].status != New
  }

  ghost predicate Solvent(book: Book) {
    Bounded(book) && Settled(book)
  }

  /** Dropping the operation takes no credit from a non-strict active account and no debit from a
      non-strict passive one. */
  predicate SafeToDrop(op: Op) {
    forall leg :: leg in op.legs && !leg.account.strict ==> InBounds(leg.account, -LegSum(op.legs, leg.account))
  }

  predicate IsLive(status: Status) {
    status == Hold || status == Committed
  }

  /** Creations hold at once, only live operations are held again, and a live operation is cancelled
      or rejected only if it is safe to drop. */
  ghost predicate Prudent(book: Book, step: Step)
    requires Enabled(book, step)
  {
    match step
    case PostDeposit(_, _, hold) => hold
    case PostWithdrawal(_, _, hold) => hold
    case PostExchange(_, _, hold) => hold
    case PostRefund(_, _, _, _, hold) => hold
    case HoldStep(id) => IsLive(book[id].status)
    case CommitStep(_) => true
    case CancelStep(id) => IsLive(book[id].status) ==> SafeToDrop(book[id])
    case RejectStep(id, _) => IsLive(book[id].status) ==> SafeToDrop(book[id])
  }

  ghost predicate PrudentRun(book: Book, steps: seq<Step>)
    requires RunEnabled(book, steps)
  {
    steps == [] ||
    var init := steps[..|steps| - 1];
    PrudentRun(book, init) && Prudent(Run(book, init), steps[|steps| - 1])
  }

  /** Without NEW operations both balances of `calculate_balance` agree. */
  lemma NoNewSameBalance(book: Book, a: Account)
    requires Settled(book)
    ensures Balance(book, a, true) == Balance(book, a, false)
  {
    TotalSame(book, LegWeight(StatusRule(Counted(true)), a), LegWeight(StatusRule(Counted(false)), a));
  }

  lemma CreatedSolvent(book: Book, id: OpId, op: Op)
    requires Solvent(book) && id !in book
    ensures Solvent(Created(book, id, op, true))
  {
    if Acceptable(book, id, op) {
      var held := op.(status := Hold);
      var book' := book[id := held];
      forall a ensures InBounds(a, Balance(book', a, false)) {
        BalanceAfterWrite(book, id, held, StatusRule(Counted(false)), a);
        NoNewSameBalance(book, a);
        AcceptableIff(book, id, op);
        if forall leg :: leg in op.legs ==> leg.account != a {
          NoLegOnAccount(op.legs, a);
        }
      }
    }
  }

  /** Moving a live operation between live statuses changes no balance. */
  lemma LiveToLive(book: Book, id: OpId, status: Status, a: Account)
    requires id in book && IsLive(book[id].status) && IsLive(status)
    ensures Balance(WithStatus(book, id, status), a, false) == Balance(book, a, false)
  {
    BalanceAfterWrite(book, id, book[id].(status := status), StatusRule(Counted(false)), a);
  }

  lemma DroppedBounded(book: Book, id: OpId, dropped: Op)
    requires Bounded(book) && id in book && dropped.legs == book[id].legs && !IsLive(dropped.status)
    requires IsLive(book[id].status) ==> SafeToDrop(book[id])
    ensures Bounded(book[id := dropped])
  {
    var op, book' := book[id], book[id := dropped];
    forall a ensures InBounds(a, Balance(book', a, false)) {
      BalanceAfterWrite(book, id, dropped, StatusRule(Counted(false)), a);
      assert InBounds(a, Balance(book, a, false));
      if a.strict {
        CountedStrictInBounds(book', a, Counted(false));
      } else if leg :| leg in op.legs && leg.account == a {
        assert IsLive(op.status) ==> InBounds(leg.account, -LegSum(op.legs, leg.account));
      } else {
        NoLegOnAccount(op.legs, a);
      }
    }
  }

  lemma NextSolvent(book: Book, step: Step)
    requires Solvent(book) && Enabled(book, step) && Prudent(book, step)
    ensures Solvent(Next(book, step))
  {
    NextWellPosted(book, step);
    match step {
      case PostDeposit(id, d, _) => CreatedSolvent(book, id, DepositOp(d));
      case PostWithdrawal(id, d, _) => CreatedSolvent(book, id, WithdrawalOp(d));
      case PostExchange(id, e, _) => CreatedSolvent(book, id, ExchangeOp(e));
      case PostRefund(id, depositId, amount, references, _) =>
        if book[depositId].legs != [] {
          CreatedSolvent(book, id, RefundOp(depositId, book[depositId], amount, references));
        }
      case HoldStep(id) =>
        forall a ensures Balance(WithStatus(book, id, Hold), a, false) == Balance(book, a, false) {
          LiveToLive(book, id, Hold, a);
        }
      case CommitStep(id) =>
        if book[id].status == Hold {
          forall a ensures Balance(WithStatus(book, id, Committed), a, false) == Balance(book, a, false) {
            LiveToLive(book, id, Committed, a);
          }
        }
      case CancelStep(id) => DroppedBounded(book, id, book[id].(status := Cancelled));
      case RejectStep(id, reason) =>
        DroppedBounded(book, id, book[id].(status := Deleted,
                                           references := book[id].references[REJECT_REASON_KEY := reason]));
    }
  }

  lemma {:induction false} RunSolvent(book: Book, steps: seq<Step>)
    requires Solvent(book) && RunEnabled(book, steps) && PrudentRun(book, steps)
    ensures Solvent(Run(book, steps))
  {
    if steps != [] {
      RunSolvent(book, steps[..|steps| - 1]);
      NextSolvent(Run(book, steps[..|steps| - 1]), steps[|steps| - 1]);
    }
  }

  /** Over every prudent run no active account is overdrawn and no passive one goes above zero. */
  lemma NoOverdraft(steps: seq<Step>, a: Account)
    requires RunEnabled(map[], steps) && PrudentRun(map[], steps)
    ensures InBounds(a, Balance(Run(map[], steps), a, false))
  {
    var none: Book := map[];
    forall b ensures InBounds(b, Balance(none, b, false)) {
      TotalZero(none, LegWeight(StatusRule(Counted(false)), b));
    }
    RunSolvent(map[], steps);
  }

  /** Whatever happened before, a commit that succeeds leaves every account it touches within bounds,
      because its check counts the operation's own held legs. */
  lemma CommitEndsInBounds(book: Book, id: OpId)
    requires id in book && book[id].status == Hold && Next(book, CommitStep(id)) != book
    ensures Next(book, CommitStep(id))[id].status == Committed
    ensures forall leg :: leg in book[id].legs ==>
      InBounds(leg.account, Balance(Next(book, CommitStep(id)), leg.account, false))
  {
    forall leg | leg in book[id].legs
      ensures InBounds(leg.account, Balance(Next(book, CommitStep(id)), leg.account, false))
    {
      LiveToLive(book, id, Committed, leg.account);
    }
  }

  // ----- When is a change of status safe -----

  /** The operation that undoes `legs`, posting to a substitute wherever an account is strict. */
  function Mirror(legs: seq<Leg>): seq<Leg> {
    if legs == [] then []
    else
      var last := legs[|legs| - 1];
      var account := if last.account.strict then Reserve(last.account) else last.account;
      Mirror(legs[..|legs| - 1]) + [Leg(account, -last.amount)]
  }

  lemma {:induction false} MirrorSums(legs: seq<Leg>, a: Account, asset: Asset)
    ensures AssetSum(Mirror(legs), asset) == -AssetSum(legs, asset)
    ensures a.strict ==> LegSum(Mirror(legs), a) == 0
    ensures !a.strict && a.kind != Normal ==> LegSum(Mirror(legs), a) == -LegSum(legs, a)
    ensures forall leg :: leg in Mirror(legs) ==> !leg.account.strict
  {
    if legs != [] {
      MirrorSums(legs[..|legs| - 1], a, asset);
      var front := Mirror(legs[..|legs| - 1]);
      var last := Mirror(legs)[|front|..];
      assert Mirror(legs) == front + last && |last| == 1;
      assert Mirror(legs)[..|Mirror(legs)| - 1] == front;
    }
  }

  lemma MirrorWellPosted(legs: seq<Leg>)
    requires Balanced(legs)
    ensures Balanced(Mirror(legs)) && SignsOk(Mirror(legs))
  {
    var mirror := Mirror(legs);
    forall leg | leg in mirror ensures AssetSum(mirror, leg.account.asset) == 0 && SignOk(leg) {
      MirrorSums(legs, leg.account, leg.account.asset);
      BalancedInEveryAsset(legs, leg.account.asset);
    }
  }

  /** A ledger that holds the operation next to one that undoes it. */
  ghost function Undone(id: OpId, op: Op, status: Status): Book {
    map[id := op, id + "'" := Op(Correction, status, Mirror(op.legs), map[])]
  }

  lemma UndoneBalance(id: OpId, op: Op, status: Status, includeNew: bool, a: Account)
    ensures Balance(Undone(id, op, status), a, includeNew)
         == (if op.status in Counted(includeNew) then LegSum(op.legs, a) else 0)
            + (if status in Counted(includeNew) then LegSum(Mirror(op.legs), a) else 0)
  {
    var w := LegWeight(StatusRule(Counted(includeNew)), a);
    var none: Book, mirror := map[], Op(Correction, status, Mirror(op.legs), map[]);
    assert Undone(id, op, status) == none[id := op][id + "'" := mirror];
    TotalWrite(none[id := op], id + "'", mirror, w);
    TotalWrite(none, id, op, w);
    TotalZero(none, w);
  }

  /** On a bounded account the two together leave what strict accounts received. */
  lemma UndoneInBounds(op: Op, a: Account)
    requires SignsOk(op.legs)
    ensures InBounds(a, LegSum(op.legs, a) + LegSum(Mirror(op.legs), a))
  {
    MirrorSums(op.legs, a, a.asset);
    if a.strict {
      StrictLegSum(op.legs, a);
    }
  }

  /** The call, a change of the operation's status, keeps every bounded ledger bounded; with `settled`,
      every bounded ledger without NEW operations. */
  ghost predicate KeepsBounds(op: Op, call: Step, settled: bool)
    requires call.HoldStep? || call.CancelStep? || call.RejectStep?
  {
    forall book: Book ::
      call.id in book && book[call.id] == op && Bounded(book) && (settled ==> Settled(book)) ==>
      Bounded(Next(book, call))
  }

  lemma LiveUndone(op: Op, id: OpId)
    requires Balanced(op.legs) && SignsOk(op.legs) && IsLive(op.status)
    ensures Bounded(Undone(id, op, Hold)) && Settled(Undone(id, op, Hold))
  {
    hide Mirror, LegSum, AssetSum;
    MirrorWellPosted(op.legs);
    forall b ensures InBounds(b, Balance(Undone(id, op, Hold), b, false)) {
      UndoneBalance(id, op, Hold, false, b);
      UndoneInBounds(op, b);
    }
  }

  lemma DropTakes(book: Book, call: Step, a: Account)
    requires (call.CancelStep? || call.RejectStep?) && call.id in book && IsLive(book[call.id].status)
    ensures Balance(Next(book, call), a, false) == Balance(book, a, false) - LegSum(book[call.id].legs, a)
  {
    var dropped := Next(book, call)[call.id];
    assert Next(book, call) == book[call.id := dropped];
    BalanceAfterWrite(book, call.id, dropped, StatusRule(Counted(false)), a);
  }

  lemma DropOverdraws(op: Op, call: Step, settled: bool)
    requires Balanced(op.legs) && SignsOk(op.legs) && IsLive(op.status) && !SafeToDrop(op)
    requires call.CancelStep? || call.RejectStep?
    ensures !KeepsBounds(op, call, settled)
  {
    hide Mirror, LegSum, AssetSum, Balance;
    var leg :| leg in op.legs && !leg.account.strict && !InBounds(leg.account, -LegSum(op.legs, leg.account));
    var a, book := leg.account, Undone(call.id, op, Hold);
    LiveUndone(op, call.id);
    DropTakes(book, call, a);
    UndoneBalance(call.id, op, Hold, false, a);
    MirrorSums(op.legs, a, a.asset);
    assert !InBounds(a, Balance(Next(book, call), a, false));
  }

  /** Cancelling or rejecting an operation, whatever its status, keeps every ledger within bounds if and
      only if the operation does not count or is safe to drop. */
  lemma CancelIsSafeIff(op: Op, call: Step, settled: bool)
    requires Balanced(op.legs) && SignsOk(op.legs)
    requires call.CancelStep? || call.RejectStep?
    ensures KeepsBounds(op, call, settled) <==> !IsLive(op.status) || SafeToDrop(op)
  {
    hide SafeToDrop;
    if !IsLive(op.status) || SafeToDrop(op) {
      forall book: Book | call.id in book && book[call.id] == op && Bounded(book) ensures Bounded(Next(book, call)) {
        DroppedBounded(book, call.id, Next(book, call)[call.id]);
        assert Next(book, call) == book[call.id := Next(book, call)[call.id]];
      }
    } else {
      DropOverdraws(op, call, settled);
    }
  }

  /** No account is moved out of its bound by the operation on its own. */
  predicate SafeToRevive(op: Op) {
    forall leg :: leg in op.legs ==> InBounds(leg.account, LegSum(op.legs, leg.account))
  }

  lemma HeldBounded(book: Book, id: OpId)
    requires Bounded(book) && id in book && (IsLive(book[id].status) || SafeToRevive(book[id]))
    ensures Bounded(WithStatus(book, id, Hold))
  {
    var op := book[id];
    forall a ensures InBounds(a, Balance(WithStatus(book, id, Hold), a, false)) {
      BalanceAfterWrite(book, id, op.(status := Hold), StatusRule(Counted(false)), a);
      assert InBounds(a, Balance(book, a, false));
      if leg :| leg in op.legs && leg.account == a {
        assert SafeToRevive(op) ==> InBounds(leg.account, LegSum(op.legs, leg.account));
      } else {
        NoLegOnAccount(op.legs, a);
      }
    }
  }

  /** Neither operation counts, or both are NEW: nothing is out of bounds and `hold` passes its check. */
  lemma UncountedUndone(op: Op, id: OpId, status: Status)
    requires Balanced(op.legs) && SignsOk(op.legs) && !IsLive(op.status)
    requires status == if op.status == New then New else Deleted
    ensures Bounded(Undone(id, op, status)) && Valid(Undone(id, op, status), op.legs, true)
  {
    hide Mirror, LegSum, AssetSum;
    var book := Undone(id, op, status);
    MirrorWellPosted(op.legs);
    forall b ensures InBounds(b, Balance(book, b, false)) && InBounds(b, Balance(book, b, true)) {
      UndoneBalance(id, op, status, false, b);
      UndoneBalance(id, op, status, true, b);
      UndoneInBounds(op, b);
    }
  }

  /** The check of `hold` does not see the legs of a cancelled operation, and sees those of a NEW one
      together with the NEW credits of others. */
  lemma ReviveOverdraws(op: Op, id: OpId, settled: bool)
    requires Balanced(op.legs) && SignsOk(op.legs) && !IsLive(op.status) && !SafeToRevive(op)
    requires settled ==> op.status != New
    ensures !KeepsBounds(op, HoldStep(id), settled)
  {
    hide Mirror, LegSum, AssetSum, Valid, Balance;
    var leg :| leg in op.legs && !InBounds(leg.account, LegSum(op.legs, leg.account));
    var a, status := leg.account, if op.status == New then New else Deleted;
    var book := Undone(id, op, status);
    UncountedUndone(op, id, status);
    HoldAdds(book, id, a);
    UndoneBalance(id, op, status, false, a);
    assert !InBounds(a, Balance(Next(book, HoldStep(id)), a, false));
    assert settled ==> Settled(book);
  }

  lemma HoldAdds(book: Book, id: OpId, a: Account)
    requires id in book && !IsLive(book[id].status)
    ensures Balance(WithStatus(book, id, Hold), a, false) == Balance(book, a, false) + LegSum(book[id].legs, a)
  {
    BalanceAfterWrite(book, id, book[id].(status := Hold), StatusRule(Counted(false)), a);
  }

  /** Holding an operation, whatever its status, keeps every ledger within bounds if and only if it counts
      already or moves no account out of its bound on its own. */
  lemma HoldIsSafeIff(op: Op, id: OpId, settled: bool)
    requires Balanced(op.legs) && SignsOk(op.legs) && (settled ==> op.status != New)
    ensures KeepsBounds(op, HoldStep(id), settled) <==> IsLive(op.status) || SafeToRevive(op)
  {
    hide SafeToRevive;
    if IsLive(op.status) || SafeToRevive(op) {
      forall book: Book | id in book && book[id] == op && Bounded(book) ensures Bounded(Next(book, HoldStep(id))) {
        HeldBounded(book, id);
      }
    } else {
      ReviveOverdraws(op, id, settled);
    }
  }

  /** For instance a cancelled withdrawal, held again while the account is empty. */
  lemma HoldingACancelledOperationCanOverdraw(asset: Asset, id: OpId)
    ensures var user, bank := Account("user", asset, Active, false), Account("bank", asset, Normal, false);
      var op := Op(Withdrawal, Cancelled, Transfer(user, bank, 1), map[]);
      !KeepsBounds(op, HoldStep(id), true)
  {
    var user, bank := Account("user", asset, Active, false), Account("bank", asset, Normal, false);
    var op := Op(Withdrawal, Cancelled, Transfer(user, bank, 1), map[]);
    forall x ensures AssetSum(op.legs, x) == 0 {
      TransferSums(user, bank, 1, user, x);
    }
    TransferSums(user, bank, 1, user, asset);
    assert op.legs[0] in op.legs && op.legs[0].account == user;
    HoldIsSafeIff(op, id, true);
  }
}
