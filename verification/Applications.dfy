/** Investment applications and the deposits and refunds behind them: adding a payment, refunding it, and
    what the application's status then says about the ledger. */
module Applications {
  import opened Common
  import opened Sums
  import opened Accounting
  import opened Postings
  import opened LedgerModel
  import opened Amounts
  import opened Refunds
  import Runs = LedgerRuns
  import Signing

  type AppId = string

  datatype Application = Application(
    user: UserId, status: Signing.ApplicationStatus, deposit: Option<OpId>, amount: int, code: string)

  datatype World = World(book: Book, apps: map<AppId, Application>)

  datatype PaymentStatus = Paid | Refunded | NotPaid

  datatype Reply = Done | Refused | Failure

  // ----- Reading the world -----

  /** A live refund operation that refers to the deposit. */
  predicate IsRefundOf(book: Book, id: OpId, deposit: OpId) {
    && id in book && book[id].kind == Refund && Runs.IsLive(book[id].status)
    && DEPOSIT_KEY in book[id].references && book[id].references[DEPOSIT_KEY] == deposit
  }

  predicate IsRefunded(book: Book, deposit: OpId) {
    exists id :: id in book && IsRefundOf(book, id, deposit)
  }

  /** `with_payment_status`. */
  function StatusOfPayment(book: Book, app: Application): PaymentStatus {
    var paid := app.deposit.Some? && app.deposit.value in book
                && Runs.IsLive(book[app.deposit.value].status);
    var refunded := app.deposit.Some? && IsRefunded(book, app.deposit.value);
    if paid && !refunded then Paid else if paid && refunded then Refunded else NotPaid
  }

  predicate Counts(app: Application, user: UserId) {
    app.user == user && (app.status == Signing.Hold || app.status == Signing.Completed)
  }

  function Invested(apps: map<AppId, Application>): AppId -> int {
    (a: AppId) => if a in apps then apps[a].amount else 0
  }

  ghost function Counting(w: World, user: UserId): set<AppId> {
    set a | a in w.apps && Counts(w.apps[a], user)
  }

  /** The total shown to a user: the amounts of the applications on hold or completed. */
  ghost function Summary(w: World, user: UserId): int {
    SetSum(Counting(w, user), Invested(w.apps))
  }

  // ----- Adding a payment and refunding it -----

  /** The deposit posted for an application: no fee and no remains. */
  function PaymentFor(app: Application, payment: Account, user: Account, bank: string, amount: int): Payment {
    Payment(payment, user, amount, None, None, None, None,
            Some(map["reference_code" := app.code, BANK_ACCOUNT_KEY := bank]))
  }

  const CENT := 10_000

  /** The application keeps two decimals: the stored value is a nearest whole cent. */
  predicate StoredAs(amount: int, stored: int) {
    stored % CENT == 0 && -CENT <= 2 * (stored - amount) <= CENT
  }

  lemma SomeNearestCent(amount: int) returns (stored: int)
    ensures StoredAs(amount, stored)
  {
    stored := (2 * amount + CENT) / (2 * CENT) * CENT;
  }

  ghost predicate CommitPasses(book: Book, id: OpId, op: Op) {
    Valid(book[id := op.(status := Hold)], op.legs, false)
  }

  /** Neither hidden as a draft nor paid already. */
  predicate Payable(app: Application) {
    app.status != Signing.Draft && app.deposit.None?
  }

  ghost predicate PaymentPasses(w: World, id: OpId, d: Payment, saveFails: bool) {
    DepositAllowed(d) && Acceptable(w.book, id, DepositOp(d)) && CommitPasses(w.book, id, DepositOp(d)) && !saveFails
  }

  /** The world after `add_payment`: a failure after the creation leaves the deposit cancelled. */
  ghost function AfterPayment(w: World, a: AppId, id: OpId, d: Payment, stored: int, saveFails: bool): World
    requires a in w.apps
  {
    if !Payable(w.apps[a]) || !DepositAllowed(d) || !Acceptable(w.book, id, DepositOp(d)) then w
    else if !PaymentPasses(w, id, d, saveFails) then w.(book := w.book[id := DepositOp(d).(status := Cancelled)])
    else World(w.book[id := DepositOp(d).(status := Committed)],
               w.apps[a := w.apps[a].(deposit := Some(id), status := Signing.Hold, amount := stored)])
  }

  /** The applications paid by the deposit, drafts being hidden, become canceled. */
  function CancelApps(apps: map<AppId, Application>, deposit: OpId): map<AppId, Application> {
    map a | a in apps ::
      if apps[a].deposit == Some(deposit) && apps[a].status != Signing.Draft
      then apps[a].(status := Signing.Canceled) else apps[a]
  }

  predicate Refundable(book: Book, deposit: OpId)
    requires deposit in book
  {
    book[deposit].status == Committed && !IsRefunded(book, deposit)
  }

  function FullRefund(book: Book, deposit: OpId): Op
    requires deposit in book && book[deposit].legs != [] && WithAmount(book[deposit]).Some?
  {
    RefundOp(deposit, book[deposit], WithAmount(book[deposit]).value, None)
  }

  /** The world after the confirmed `refund` action. */
  ghost function AfterRefund(w: World, deposit: OpId, id: OpId, updateFails: bool): World
    requires deposit in w.book
  {
    if !Refundable(w.book, deposit) || w.book[deposit].legs == [] || WithAmount(w.book[deposit]).None? then w
    else
      var op := FullRefund(w.book, deposit);
      if !Acceptable(w.book, id, op) then w
      else if !CommitPasses(w.book, id, op) || updateFails then w.(book := w.book[id := op.(status := Cancelled)])
      else World(w.book[id := op.(status := Committed)], CancelApps(w.apps, deposit))
  }

  class Investments {
    const ledger: Ledger
    var apps: map<AppId, Application>

    constructor ()
      ensures fresh(ledger) && State() == World(map[], map[])
    {
      ledger := new Ledger();
      apps := map[];
    }

    function State(): World
      reads this, ledger
    {
      World(ledger.book, apps)
    }

    /** The API creates every application as a draft. */
    method Apply(a: AppId, user: UserId, amount: int, code: string)
      requires a !in apps
      modifies this
      ensures apps == old(apps)[a := Application(user, Signing.Draft, None, amount, code)]
    {
      apps := apps[a := Application(user, Signing.Draft, None, amount, code)];
    }

    /** A completed envelope turns the draft into a pending application. */
    method Sign(a: AppId)
      requires a in apps
      modifies this
      ensures apps == if old(apps)[a].status == Signing.Draft
                      then old(apps)[a := old(apps)[a].(status := Signing.Pending)] else old(apps)
    {
      if apps[a].status == Signing.Draft {
        apps := apps[a := apps[a].(status := Signing.Pending)];
      }
    }

    method AddPayment(a: AppId, id: OpId, payment: Account, user: Account, bank: string, amount: int,
                      stored: int, saveFails: bool) returns (r: Reply)
      requires a in apps && id !in ledger.book
      modifies this, ledger
      ensures var d := PaymentFor(old(apps)[a], payment, user, bank, amount);
        State() == AfterPayment(old(State()), a, id, d, stored, saveFails)
      ensures r == Done <==>
        && Payable(old(apps)[a])
        && PaymentPasses(old(State()), id, PaymentFor(old(apps)[a], payment, user, bank, amount), saveFails)
    {
      hide Acceptable, Valid, DepositLegs;
      var app := apps[a];
      if app.status == Signing.Draft || app.deposit.Some? {
        return Refused;
      }
      var d := PaymentFor(app, payment, user, bank, amount);
      var made := ledger.CreateDeposit(id, d, true);
      if made.Raised? {
        return Failure;
      }
      var committed := ledger.Commit(id);
      if committed.Raised? || saveFails {
        ledger.Cancel(id);
        return Failure;
      }
      apps := apps[a := app.(deposit := Some(id), status := Signing.Hold, amount := stored)];
      r := Done;
    }

    /** The administrator's refund; without confirmation only a page is shown. */
    method RefundDeposit(deposit: OpId, id: OpId, confirmed: bool, updateFails: bool) returns (r: Reply)
      requires deposit in ledger.book && id !in ledger.book
      modifies this, ledger
      ensures State() == if confirmed then AfterRefund(old(State()), deposit, id, updateFails) else old(State())
      ensures r == Refused <==> !Refundable(old(ledger.book), deposit)
      ensures r == Done && confirmed ==> IsRefundOf(ledger.book, id, deposit)
    {
      hide Acceptable, Valid, IsRefunded, WithAmount, Smallest, Largest;
      var before := ledger.book;
      if before[deposit].status != Committed || IsRefunded(before, deposit) {
        return Refused;
      }
      if !confirmed {
        return Done;
      }
      var amount := WithAmount(before[deposit]);
      if amount.None? {
        return Failure;
      }
      var made := ledger.CreateRefund(id, deposit, amount.value, None, true);
      if made.Raised? {
        return Failure;
      }
      var committed := ledger.Commit(id);
      if committed.Raised? || updateFails {
        ledger.Cancel(id);
        return Failure;
      }
      apps := CancelApps(apps, deposit);
      r := Done;
    }
  }

  // ----- The agreement between applications and operations -----

  predicate IsDepositOf(apps: map<AppId, Application>, id: OpId) {
    exists a :: a in apps && apps[a].deposit == Some(id)
  }

  /** The deposit of a paid application is committed and the application stores its amount. */
  predicate DepositSound(book: Book, app: Application) {
    app.deposit.Some? ==>
      && app.deposit.value in book && book[app.deposit.value].kind == Deposit
      && book[app.deposit.value].status == Committed
      && WithAmount(book[app.deposit.value]).Some?
      && StoredAs(WithAmount(book[app.deposit.value]).value, app.amount)
  }

  predicate StatusSound(book: Book, app: Application) {
    match app.deposit
    case None => app.status == Signing.Draft || app.status == Signing.Pending
    case Some(deposit) => app.status == if IsRefunded(book, deposit) then Signing.Canceled else Signing.Hold
  }

  predicate RefundSound(book: Book, op: Op) {
    op.kind == Refund ==> DEPOSIT_KEY in op.references && op.references[DEPOSIT_KEY] in book
  }

  ghost predicate OneRefundEach(book: Book) {
    forall r, s, deposit :: IsRefundOf(book, r, deposit) && IsRefundOf(book, s, deposit) ==> r == s
  }

  ghost predicate OneDepositEach(apps: map<AppId, Application>) {
    forall a, b :: a in apps && b in apps && apps[a].deposit.Some? && apps[a].deposit == apps[b].deposit ==> a == b
  }

  ghost predicate Agrees(w: World) {
    && (forall a :: a in w.apps ==> DepositSound(w.book, w.apps[a]) && StatusSound(w.book, w.apps[a]))
    && OneDepositEach(w.apps)
    && (forall id :: id in w.book ==> RefundSound(w.book, w.book[id]))
    && OneRefundEach(w.book)
  }

  /** No refund appears, and those of the applications' deposits stay. */
  ghost predicate RefundsKept(w: World, after: Book) {
    && (forall r, deposit :: IsRefundOf(after, r, deposit) ==> IsRefundOf(w.book, r, deposit))
    && (forall r, deposit ::
          IsDepositOf(w.apps, deposit) && IsRefundOf(w.book, r, deposit) ==> IsRefundOf(after, r, deposit))
  }

  /** Writing an operation that is nobody's deposit, with the refunds kept, keeps the agreement. */
  lemma WriteAgrees(w: World, id: OpId, op: Op)
    requires Agrees(w) && RefundSound(w.book[id := op], op) && RefundsKept(w, w.book[id := op])
    requires !IsDepositOf(w.apps, id)
    ensures Agrees(w.(book := w.book[id := op]))
  {
    hide StoredAs, WithAmount;
    var book := w.book[id := op];
    forall a | a in w.apps ensures DepositSound(book, w.apps[a]) && StatusSound(book, w.apps[a]) {
      assert DepositSound(w.book, w.apps[a]) && StatusSound(w.book, w.apps[a]);
      if w.apps[a].deposit.Some? {
        assert IsDepositOf(w.apps, w.apps[a].deposit.value);
        assert IsRefunded(book, w.apps[a].deposit.value) <==> IsRefunded(w.book, w.apps[a].deposit.value);
      }
    }
    forall r | r in book ensures RefundSound(book, book[r]) {
      if r != id {
        assert RefundSound(w.book, w.book[r]);
      }
    }
  }

  /** An identifier not in use is neither an application's deposit nor referred to by a refund. */
  lemma FreshOperation(w: World, id: OpId)
    requires Agrees(w) && id !in w.book
    ensures !IsDepositOf(w.apps, id) && !IsRefunded(w.book, id)
  {
    forall a | a in w.apps ensures w.apps[a].deposit != Some(id) {
      assert DepositSound(w.book, w.apps[a]);
    }
    forall r | r in w.book ensures !IsRefundOf(w.book, r, id) {
      assert RefundSound(w.book, w.book[r]);
    }
  }

  /** A new operation that is no live refund. */
  lemma NewOperationAgrees(w: World, id: OpId, op: Op)
    requires Agrees(w) && id !in w.book
    requires op.kind == Refund ==> op.status == Cancelled && RefundSound(w.book, op)
    ensures Agrees(w.(book := w.book[id := op]))
    ensures !IsRefunded(w.book[id := op], id)
  {
    hide DepositSound, StatusSound;
    FreshOperation(w, id);
    WriteAgrees(w, id, op);
    assert forall r :: IsRefundOf(w.book[id := op], r, id) ==> IsRefundOf(w.book, r, id);
  }

  // ----- Payment and refund keep the agreement -----

  lemma DepositAmount(d: Payment)
    requires d.amount > 0 && d.feeAccount.None? && d.roundingAccount.None?
    ensures WithAmount(DepositOp(d)) == Some(d.amount)
  {
    PaymentAmounts(d, {});
    assert DepositLegs(d)[1] == Leg(d.user, d.amount) && DepositLegs(d)[1] in DepositLegs(d);
  }

  lemma PaidAgrees(w: World, a: AppId, app: Application)
    requires Agrees(w) && a in w.apps && app.deposit.Some? && app.status == Signing.Hold && DepositSound(w.book, app)
    requires !IsDepositOf(w.apps, app.deposit.value) && !IsRefunded(w.book, app.deposit.value)
    ensures Agrees(w.(apps := w.apps[a := app]))
  {
  }

  lemma {:induction false} PaymentAgrees(w: World, a: AppId, id: OpId, d: Payment, stored: int, saveFails: bool)
    requires Agrees(w) && a in w.apps && id !in w.book
    requires d.feeAccount.None? && d.roundingAccount.None? && StoredAs(d.amount, stored)
    ensures Agrees(AfterPayment(w, a, id, d, stored, saveFails))
  {
    hide Agrees, Acceptable, CommitPasses, StoredAs;
    var committed := DepositOp(d).(status := Committed);
    NewOperationAgrees(w, id, DepositOp(d).(status := Cancelled));
    NewOperationAgrees(w, id, committed);
    FreshOperation(w, id);
    if DepositAllowed(d) {
      DepositAmount(d);
      assert WithAmount(committed) == WithAmount(DepositOp(d));
      var paid := w.apps[a].(deposit := Some(id), status := Signing.Hold, amount := stored);
      PaidAgrees(w.(book := w.book[id := committed]), a, paid);
    }
  }

  lemma RefundedAgrees(w: World, deposit: OpId, id: OpId, op: Op)
    requires Agrees(w) && deposit in w.book && id !in w.book && !IsRefunded(w.book, deposit)
    requires op.kind == Refund && op.status == Committed
    requires DEPOSIT_KEY in op.references && op.references[DEPOSIT_KEY] == deposit
    ensures Agrees(World(w.book[id := op], CancelApps(w.apps, deposit)))
  {
    hide StoredAs, WithAmount;
    var book, apps := w.book[id := op], CancelApps(w.apps, deposit);
    assert IsRefundOf(book, id, deposit);
    forall r, d | r != id || d != deposit ensures IsRefundOf(book, r, d) <==> IsRefundOf(w.book, r, d) {
    }
    FreshOperation(w, id);
    forall a | a in apps ensures DepositSound(book, apps[a]) && StatusSound(book, apps[a]) {
      assert DepositSound(w.book, w.apps[a]) && StatusSound(w.book, w.apps[a]);
    }
    forall r | r in book ensures RefundSound(book, book[r]) {
      if r != id {
        assert RefundSound(w.book, w.book[r]);
      }
    }
  }

  lemma RefundAgrees(w: World, deposit: OpId, id: OpId, updateFails: bool)
    requires Agrees(w) && deposit in w.book && id !in w.book
    ensures Agrees(AfterRefund(w, deposit, id, updateFails))
  {
    hide Agrees, Acceptable, CommitPasses;
    if Refundable(w.book, deposit) && w.book[deposit].legs != [] && WithAmount(w.book[deposit]).Some? {
      var op := FullRefund(w.book, deposit);
      NewOperationAgrees(w, id, op.(status := Cancelled));
      RefundedAgrees(w, deposit, id, op.(status := Committed));
    }
  }

  // ----- Whole runs -----

  datatype Event =
    | ApplyFor(a: AppId, user: UserId, amount: int, code: string)
    | SignAgreement(a: AppId)
    | Pay(a: AppId, id: OpId, payment: Account, account: Account, bank: string, amount: int, stored: int,
          saveFails: bool)
    | RefundPayment(deposit: OpId, id: OpId, updateFails: bool)
    | OtherStep(step: Runs.Step)

  /** The operation is a paid application's deposit or its live refund. */
  ghost predicate Tracked(w: World, id: OpId) {
    IsDepositOf(w.apps, id) || exists deposit :: IsDepositOf(w.apps, deposit) && IsRefundOf(w.book, id, deposit)
  }

  /** What else may happen in the ledger: any deposit, withdrawal, exchange and commit, and taking back
      or holding again operations that no application depends on. */
  ghost predicate Unrelated(w: World, step: Runs.Step)
    requires Runs.Enabled(w.book, step)
  {
    match step
    case PostRefund(_, _, _, _, _) => false
    case HoldStep(id) => !IsDepositOf(w.apps, id) && (w.book[id].kind == Refund ==> Runs.IsLive(w.book[id].status))
    case CancelStep(id) => !Tracked(w, id)
    case RejectStep(id, _) => !Tracked(w, id)
    case _ => true
  }

  ghost predicate EventEnabled(w: World, e: Event) {
    match e
    case ApplyFor(a, _, _, _) => a !in w.apps
    case SignAgreement(a) => a in w.apps
    case Pay(a, id, _, _, _, amount, stored, _) => a in w.apps && id !in w.book && StoredAs(amount, stored)
    case RefundPayment(deposit, id, _) => deposit in w.book && id !in w.book
    case OtherStep(step) => Runs.Enabled(w.book, step) && Unrelated(w, step)
  }

  ghost function After(w: World, e: Event): World
    requires EventEnabled(w, e)
  {
    match e
    case ApplyFor(a, user, amount, code) =>
      w.(apps := w.apps[a := Application(user, Signing.Draft, None, amount, code)])
    case SignAgreement(a) =>
      if w.apps[a].status == Signing.Draft then w.(apps := w.apps[a := w.apps[a].(status := Signing.Pending)]) else w
    case Pay(a, id, payment, account, bank, amount, stored, saveFails) =>
      AfterPayment(w, a, id, PaymentFor(w.apps[a], payment, account, bank, amount), stored, saveFails)
    case RefundPayment(deposit, id, updateFails) => AfterRefund(w, deposit, id, updateFails)
    case OtherStep(step) => w.(book := Runs.Next(w.book, step))
  }

  ghost predicate RunEnabled(events: seq<Event>)
    decreases events, 0
  {
    events == [] ||
    var init := events[..|events| - 1];
    RunEnabled(init) && EventEnabled(Run(init), events[|events| - 1])
  }

  /** The world after the events, starting with no operation and no application. */
  ghost function Run(events: seq<Event>): World
    requires RunEnabled(events)
    decreases events, 1
  {
    if events == [] then World(map[], map[]) else After(Run(events[..|events| - 1]), events[|events| - 1])
  }

  /** The imperative code performs exactly these events. */
  method Perform(i: Investments, e: Event)
    requires EventEnabled(i.State(), e)
    modifies i, i.ledger
    ensures i.State() == After(old(i.State()), e)
  {
    match e {
      case ApplyFor(a, user, amount, code) => i.Apply(a, user, amount, code);
      case SignAgreement(a) => i.Sign(a);
      case Pay(a, id, payment, account, bank, amount, stored, saveFails) =>
        var _ := i.AddPayment(a, id, payment, account, bank, amount, stored, saveFails);
      case RefundPayment(deposit, id, updateFails) => var _ := i.RefundDeposit(deposit, id, true, updateFails);
      case OtherStep(step) => Runs.Perform(i.ledger, step);
    }
  }

  /** A change of status, or of the reason of a rejection. */
  lemma StatusAgrees(w: World, id: OpId, op: Op)
    requires Agrees(w) && id in w.book && !IsDepositOf(w.apps, id)
    requires op.kind == w.book[id].kind
    requires DEPOSIT_KEY in op.references <==> DEPOSIT_KEY in w.book[id].references
    requires DEPOSIT_KEY in op.references ==> op.references[DEPOSIT_KEY] == w.book[id].references[DEPOSIT_KEY]
    requires Runs.IsLive(op.status) && op.kind == Refund ==> Runs.IsLive(w.book[id].status)
    requires !Runs.IsLive(op.status) ==> !Tracked(w, id)
    ensures Agrees(w.(book := w.book[id := op]))
  {
    hide DepositSound, StatusSound;
    assert RefundSound(w.book, w.book[id]);
    WriteAgrees(w, id, op);
  }

  lemma OtherStepAgrees(w: World, step: Runs.Step)
    requires Agrees(w) && Runs.Enabled(w.book, step) && Unrelated(w, step)
    ensures Agrees(w.(book := Runs.Next(w.book, step)))
  {
    hide Agrees, Acceptable, Valid;
    match step {
      case PostDeposit(id, d, hold) => CreatedAgrees(w, id, DepositOp(d), hold);
      case PostWithdrawal(id, d, hold) => CreatedAgrees(w, id, WithdrawalOp(d), hold);
      case PostExchange(id, e, hold) => CreatedAgrees(w, id, ExchangeOp(e), hold);
      case PostRefund(_, _, _, _, _) =>
      case HoldStep(id) => StatusAgrees(w, id, w.book[id].(status := Hold));
      case CommitStep(id) =>
        HeldIsNoDeposit(w, id);
        if w.book[id].status == Hold {
          StatusAgrees(w, id, w.book[id].(status := Committed));
        }
      case CancelStep(id) => StatusAgrees(w, id, w.book[id].(status := Cancelled));
      case RejectStep(id, reason) => StatusAgrees(w, id, Runs.Next(w.book, step)[id]);
    }
  }

  lemma CreatedAgrees(w: World, id: OpId, op: Op, hold: bool)
    requires Agrees(w) && id !in w.book && op.kind != Refund
    ensures Agrees(w.(book := Created(w.book, id, op, hold)))
  {
    hide Agrees, Acceptable;
    NewOperationAgrees(w, id, op.(status := if hold then Hold else New));
  }

  lemma HeldIsNoDeposit(w: World, id: OpId)
    requires Agrees(w) && id in w.book
    ensures w.book[id].status == Hold ==> !IsDepositOf(w.apps, id)
  {
    forall a | a in w.apps && w.apps[a].deposit == Some(id) ensures w.book[id].status == Committed {
      assert DepositSound(w.book, w.apps[a]);
    }
  }

  lemma AfterAgrees(w: World, e: Event)
    requires Agrees(w) && EventEnabled(w, e)
    ensures Agrees(After(w, e))
  {
    match e {
      case ApplyFor(_, _, _, _) =>
      case SignAgreement(a) => assert StatusSound(w.book, w.apps[a]) && DepositSound(w.book, w.apps[a]);
      case Pay(a, id, payment, account, bank, amount, stored, saveFails) =>
        PaymentAgrees(w, a, id, PaymentFor(w.apps[a], payment, account, bank, amount), stored, saveFails);
      case RefundPayment(deposit, id, updateFails) => RefundAgrees(w, deposit, id, updateFails);
      case OtherStep(step) => OtherStepAgrees(w, step);
    }
  }

  lemma {:induction false} RunAgrees(events: seq<Event>)
    requires RunEnabled(events)
    ensures Agrees(Run(events))
  {
    hide Agrees, EventEnabled, After;
    if events != [] {
      RunAgrees(events[..|events| - 1]);
      AfterAgrees(Run(events[..|events| - 1]), events[|events| - 1]);
    } else {
      EmptyAgrees();
    }
  }

  lemma EmptyAgrees()
    ensures Agrees(World(map[], map[]))
  {
  }

  // ----- What the agreement says -----

  /** The deposits of the user's applications that are committed and not refunded. */
  ghost function Unrefunded(w: World, user: UserId): set<OpId> {
    set id | id in w.book && w.book[id].status == Committed && !IsRefunded(w.book, id)
             && exists a :: a in w.apps && w.apps[a].deposit == Some(id) && w.apps[a].user == user
  }

  function DepositedAmount(book: Book): OpId -> int {
    (id: OpId) => if id in book && WithAmount(book[id]).Some? then WithAmount(book[id]).value else 0
  }

  /** What every application shows is what the ledger holds. */
  lemma {:induction false} ApplicationAndLedgerAgree(events: seq<Event>, a: AppId)
    requires RunEnabled(events) && a in Run(events).apps
    ensures var w := Run(events);
      var app := w.apps[a];
      && (app.status == Signing.Hold <==>
            && app.deposit.Some? && app.deposit.value in w.book
            && w.book[app.deposit.value].status == Committed && !IsRefunded(w.book, app.deposit.value))
      && (StatusOfPayment(w.book, app) == Paid <==> app.status == Signing.Hold)
      && (StatusOfPayment(w.book, app) == Refunded <==> app.status == Signing.Canceled && app.deposit.Some?)
      && (StatusOfPayment(w.book, app) == NotPaid <==> app.deposit.None?)
  {
    hide WithAmount, StoredAs;
    RunAgrees(events);
    var w := Run(events);
    assert DepositSound(w.book, w.apps[a]) && StatusSound(w.book, w.apps[a]);
  }

  /** No deposit is refunded twice, whether an application refers to it or not. */
  lemma {:induction false} AtMostOneRefund(events: seq<Event>, deposit: OpId, r: OpId, s: OpId)
    requires RunEnabled(events)
    requires IsRefundOf(Run(events).book, r, deposit) && IsRefundOf(Run(events).book, s, deposit)
    ensures r == s
  {
    hide Run, RunEnabled;
    RunAgrees(events);
  }

  function DepositId(apps: map<AppId, Application>): AppId -> OpId {
    (a: AppId) => if a in apps && apps[a].deposit.Some? then apps[a].deposit.value else ""
  }

  /** The applications in the summary are those with an unrefunded deposit, one for one. */
  lemma CountingHaveDeposits(w: World, user: UserId)
    requires Agrees(w)
    ensures Unrefunded(w, user) == Image(Counting(w, user), DepositId(w.apps))
    ensures var id := DepositId(w.apps);
      forall a, b :: a in Counting(w, user) && b in Counting(w, user) && id(a) == id(b) ==> a == b
    ensures forall a :: a in Counting(w, user) ==>
      StoredAs(DepositedAmount(w.book)(DepositId(w.apps)(a)), w.apps[a].amount)
  {
    hide StoredAs, WithAmount;
    forall a | a in w.apps
      ensures Counts(w.apps[a], user) <==>
        && w.apps[a].user == user && w.apps[a].deposit.Some? && !IsRefunded(w.book, w.apps[a].deposit.value)
      ensures w.apps[a].deposit.Some? ==>
        && w.apps[a].deposit.value in w.book
        && w.book[w.apps[a].deposit.value].status == Committed
        && StoredAs(DepositedAmount(w.book)(DepositId(w.apps)(a)), w.apps[a].amount)
    {
      assert DepositSound(w.book, w.apps[a]) && StatusSound(w.book, w.apps[a]);
    }
  }

  lemma NearestCent(amount: int, stored: int)
    requires StoredAs(amount, stored) && amount % CENT == 0
    ensures stored == amount
  {
  }

  lemma SummaryNear(w: World, user: UserId)
    requires Agrees(w)
    ensures var deposits := SetSum(Unrefunded(w, user), DepositedAmount(w.book));
      -CENT * |Unrefunded(w, user)| <= 2 * (Summary(w, user) - deposits) <= CENT * |Unrefunded(w, user)|
  {
    hide Agrees, WithAmount, Unrefunded, DepositedAmount, DepositId, Image;
    var apps, g, f := Counting(w, user), DepositId(w.apps), DepositedAmount(w.book);
    var h := (a: AppId) => f(g(a));
    CountingHaveDeposits(w, user);
    SetSumImage(apps, g, f, h);
    SetSumWithin(apps, Invested(w.apps), h, CENT);
  }

  lemma SummaryExact(w: World, user: UserId)
    requires Agrees(w) && forall id :: id in Unrefunded(w, user) ==> DepositedAmount(w.book)(id) % CENT == 0
    ensures Summary(w, user) == SetSum(Unrefunded(w, user), DepositedAmount(w.book))
  {
    hide Agrees, WithAmount, Unrefunded, DepositedAmount, DepositId, Image;
    var apps, g, f := Counting(w, user), DepositId(w.apps), DepositedAmount(w.book);
    var h := (a: AppId) => f(g(a));
    CountingHaveDeposits(w, user);
    SetSumImage(apps, g, f, h);
    forall a | a in apps ensures Invested(w.apps)(a) == h(a) {
      InImage(apps, g, a);
      NearestCent(h(a), w.apps[a].amount);
    }
    SetSumSame(apps, Invested(w.apps), h);
  }

  /** The total a user is shown is the sum of the unrefunded deposits of the user's applications, up to
      half a cent for each, and exactly that sum when the deposits are whole cents. */
  lemma SummaryIsUnrefundedDeposits(events: seq<Event>, user: UserId)
    requires RunEnabled(events)
    ensures var w := Run(events);
      var deposits := SetSum(Unrefunded(w, user), DepositedAmount(w.book));
      && -CENT * |Unrefunded(w, user)| <= 2 * (Summary(w, user) - deposits) <= CENT * |Unrefunded(w, user)|
      && ((forall id :: id in Unrefunded(w, user) ==> DepositedAmount(w.book)(id) % CENT == 0)
          ==> Summary(w, user) == deposits)
  {
    hide Run, RunEnabled, Agrees, Unrefunded, Summary, DepositedAmount;
    var w := Run(events);
    RunAgrees(events);
    SummaryNear(w, user);
    if forall id :: id in Unrefunded(w, user) ==> DepositedAmount(w.book)(id) % CENT == 0 {
      SummaryExact(w, user);
    }
  }

  // ----- When payments and refunds go through -----

  /** Exactly the pending applications can be paid, and exactly the deposits of applications on hold can be
      refunded. */
  lemma PayableAndRefundable(w: World, a: AppId)
    requires Agrees(w) && a in w.apps
    ensures Payable(w.apps[a]) <==> w.apps[a].status == Signing.Pending
    ensures w.apps[a].deposit.Some? ==>
      && w.apps[a].deposit.value in w.book
      && (Refundable(w.book, w.apps[a].deposit.value) <==> w.apps[a].status == Signing.Hold)
  {
    hide WithAmount, StoredAs;
    assert DepositSound(w.book, w.apps[a]) && StatusSound(w.book, w.apps[a]);
  }

  /** A payment that the ledger takes puts the pending application on hold with its deposit and amount, and
      any failure leaves it pending and unpaid. */
  lemma PaymentComesTo(w: World, a: AppId, id: OpId, d: Payment, stored: int, saveFails: bool)
    requires Agrees(w) && a in w.apps && w.apps[a].status == Signing.Pending
    ensures var w' := AfterPayment(w, a, id, d, stored, saveFails);
      if DepositAllowed(d) && Acceptable(w.book, id, DepositOp(d)) && CommitPasses(w.book, id, DepositOp(d))
         && !saveFails
      then w'.apps[a] == w.apps[a].(deposit := Some(id), status := Signing.Hold, amount := stored)
           && id in w'.book && w'.book[id].status == Committed
      else w'.apps == w.apps && (id in w'.book && id !in w.book ==> w'.book[id].status == Cancelled)
  {
    hide WithAmount, StoredAs, Acceptable, CommitPasses, DepositLegs;
    assert StatusSound(w.book, w.apps[a]);
  }

  /** A refund that the ledger takes cancels the application on hold; any failure leaves it on hold. */
  lemma RefundComesTo(w: World, a: AppId, id: OpId, updateFails: bool)
    requires Agrees(w) && a in w.apps && w.apps[a].status == Signing.Hold && id !in w.book
    ensures w.apps[a].deposit.Some? && w.apps[a].deposit.value in w.book
    ensures var deposit := w.apps[a].deposit.value;
      && w.book[deposit].legs != [] && WithAmount(w.book[deposit]).Some?
      && var op, w' := FullRefund(w.book, deposit), AfterRefund(w, deposit, id, updateFails);
         if Acceptable(w.book, id, op) && CommitPasses(w.book, id, op) && !updateFails
         then w'.apps[a] == w.apps[a].(status := Signing.Canceled) && IsRefundOf(w'.book, id, deposit)
         else w'.apps == w.apps
  {
    hide StoredAs, Acceptable, CommitPasses, Smallest, Largest, Credits, Debits;
    assert DepositSound(w.book, w.apps[a]);
    PayableAndRefundable(w, a);
    assert WithAmount(w.book[w.apps[a].deposit.value]).Some?;
  }

  /** Exactly the applications of the deposit that are no drafts are canceled, and nothing else of them
      changes. */
  lemma CanceledAre(apps: map<AppId, Application>, deposit: OpId, a: AppId)
    requires a in apps
    ensures CancelApps(apps, deposit).Keys == apps.Keys
    ensures apps[a].deposit == Some(deposit) && apps[a].status != Signing.Draft ==>
      CancelApps(apps, deposit)[a] == apps[a].(status := Signing.Canceled)
    ensures apps[a].deposit != Some(deposit) || apps[a].status == Signing.Draft ==>
      CancelApps(apps, deposit)[a] == apps[a]
  {
  }

  /** A deposit counts as a payment while it is held or committed. */
  lemma PaymentStatusIs(book: Book, app: Application)
    ensures app.deposit.None? ==> StatusOfPayment(book, app) == NotPaid
    ensures app.deposit.Some? && app.deposit.value in book ==>
      var status := book[app.deposit.value].status;
      && (status in {New, Cancelled, Deleted} ==> StatusOfPayment(book, app) == NotPaid)
      && (status in {Hold, Committed} ==>
            StatusOfPayment(book, app) == if IsRefunded(book, app.deposit.value) then Refunded else Paid)
  {
  }

  /** An application adds its amount to the total of its user while it is on hold or completed. */
  lemma SummaryAdds(w: World, a: AppId, app: Application, user: UserId)
    requires a !in w.apps
    ensures Summary(w.(apps := w.apps[a := app]), user) == Summary(w, user)
      + if app.user == user && (app.status == Signing.Hold || app.status == Signing.Completed) then app.amount else 0
  {
    var w' := w.(apps := w.apps[a := app]);
    SetSumSame(Counting(w, user), Invested(w.apps), Invested(w'.apps));
    if Counts(app, user) {
      assert Counting(w', user) == Counting(w, user) + {a};
      assert Counting(w', user) - {a} == Counting(w, user);
      SetSumSplit(Counting(w', user), a, Invested(w'.apps));
    } else {
      assert Counting(w', user) == Counting(w, user);
    }
  }

  /** The payment of an application carries its reference code and the bank account. */
  lemma PaymentRefers(app: Application, payment: Account, user: Account, bank: string, amount: int)
    ensures PaymentFor(app, payment, user, bank, amount).references
         == Some(map["reference_code" := app.code, "user_bank_account_uuid" := bank])
  {
  }

  // ----- The guard on cancelling is exact -----

  lemma TrackedCancelDisagrees(w: World, id: OpId)
    requires Agrees(w) && id in w.book && Tracked(w, id)
    ensures !Agrees(w.(book := WithStatus(w.book, id, Cancelled)))
  {
    hide WithAmount, StoredAs;
    var book := WithStatus(w.book, id, Cancelled);
    if IsDepositOf(w.apps, id) {
      var a :| a in w.apps && w.apps[a].deposit == Some(id);
      assert !DepositSound(book, w.apps[a]);
    } else {
      var deposit :| IsDepositOf(w.apps, deposit) && IsRefundOf(w.book, id, deposit);
      var a :| a in w.apps && w.apps[a].deposit == Some(deposit);
      assert IsRefunded(w.book, deposit) && StatusSound(w.book, w.apps[a]);
      forall r | r in book ensures !IsRefundOf(book, r, deposit) {
        assert IsRefundOf(book, r, deposit) ==> IsRefundOf(w.book, r, deposit);
      }
      assert !StatusSound(book, w.apps[a]);
    }
  }

  /** Cancelling an operation, which the ledger always permits, keeps applications and ledger in agreement
      if and only if it is neither an application's deposit nor the live refund of one. */
  lemma CancelKeepsAgreementIff(w: World, id: OpId)
    requires Agrees(w) && id in w.book
    ensures Agrees(w.(book := WithStatus(w.book, id, Cancelled))) <==> !Tracked(w, id)
  {
    hide Agrees, DepositSound, StatusSound;
    if Tracked(w, id) {
      TrackedCancelDisagrees(w, id);
    } else {
      StatusAgrees(w, id, w.book[id].(status := Cancelled));
    }
  }

  /** Once its deposit is cancelled an application on hold is no longer paid, yet the summary still
      counts its amount. */
  lemma CancelledDepositStillCounts(w: World, a: AppId)
    requires Agrees(w) && a in w.apps && w.apps[a].status == Signing.Hold
    ensures w.apps[a].deposit.Some? && w.apps[a].deposit.value in w.book
    ensures var w' := w.(book := WithStatus(w.book, w.apps[a].deposit.value, Cancelled));
      && StatusOfPayment(w'.book, w.apps[a]) == NotPaid
      && Summary(w', w.apps[a].user) == Summary(w, w.apps[a].user)
      && w.apps[a].deposit.value in Unrefunded(w, w.apps[a].user) - Unrefunded(w', w.apps[a].user)
  {
    hide WithAmount, StoredAs;
    assert DepositSound(w.book, w.apps[a]) && StatusSound(w.book, w.apps[a]);
    var w' := w.(book := WithStatus(w.book, w.apps[a].deposit.value, Cancelled));
    assert Counting(w, w.apps[a].user) == Counting(w', w.apps[a].user);
  }

  /** The payment of an application moves its amount from the bank to the user, and its refund, with the
      accounts that `create_refund` selects, moves the same amount the same way once more. */
  lemma RefundRepeatsPayment(book: Book, deposit: OpId, app: Application, payment: Account, user: Account,
                             bank: string, amount: int)
    requires deposit in book && payment != user && amount > 0
    requires book[deposit] == DepositOp(PaymentFor(app, payment, user, bank, amount)).(status := Committed)
    ensures book[deposit].legs != [] && WithAmount(book[deposit]) == Some(amount)
    ensures forall a :: LegSum(book[deposit].legs, a) == On(user, a, amount) - On(payment, a, amount)
    ensures forall a :: LegSum(FullRefund(book, deposit).legs, a) == LegSum(book[deposit].legs, a)
  {
    hide LegSum;
    var d := PaymentFor(app, payment, user, bank, amount);
    DepositAmount(d);
    assert WithAmount(book[deposit]) == WithAmount(DepositOp(d));
    assert DepositLegs(d)[0] == Leg(payment, -amount);
    forall a ensures LegSum(DepositLegs(d), a) == On(user, a, amount) - On(payment, a, amount) {
      DepositMoves(d, a);
    }
    FullRefundRepeats(deposit, d, Committed, None);
  }
}
