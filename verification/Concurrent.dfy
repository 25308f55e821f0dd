/** Concurrent creation: each call inserts its NEW legs in one database transaction and validates in
    later ones, reading one account balance at a time while other calls are doing the same. */
module ConcurrentCreation {
  import opened Sums
  import opened Accounting
  import opened Postings
  import opened LedgerModel

  /** How far the call that creates an operation has come: legs checked by the first validation, legs
      checked by the validation inside `hold`, an exception on its way to the deletion, or returned. */
  datatype Call = First(checked: nat) | Second(checked: nat) | Failing | Returned

  datatype Row = Row(op: Op, call: Call)
  type Rows = map<OpId, Row>

  datatype Action =
    | Insert(id: OpId, op: Op)
    | Check(id: OpId)
    | EnterHold(id: OpId)
    | SetHold(id: OpId)
    | Delete(id: OpId)
    | Commit(id: OpId)
    | Drop(id: OpId, status: Status)

  ghost function BookOf(rows: Rows): Book {
    map id | id in rows :: rows[id].op
  }

  /** One leg passes validation; the balance counts the NEW legs of every call in flight. */
  ghost predicate LegPasses(rows: Rows, op: Op, i: nat)
    requires i < |op.legs|
  {
    && Balanced(op.legs)
    && SignOk(op.legs[i])
    && InBounds(op.legs[i].account, Balance(BookOf(rows), op.legs[i].account, true))
  }

  ghost predicate Enabled(rows: Rows, action: Action) {
    match action
    case Insert(id, op) => id !in rows && op.status == New
    case Check(id) =>
      && id in rows && (rows[id].call.First? || rows[id].call.Second?)
      && rows[id].call.checked < |rows[id].op.legs|
    case EnterHold(id) => id in rows && rows[id].call == First(|rows[id].op.legs|)
    case SetHold(id) => id in rows && rows[id].call == Second(|rows[id].op.legs|)
    case Delete(id) => id in rows && rows[id].call == Failing
    case Commit(id) => id in rows && rows[id].call == Returned && rows[id].op.status == Hold
    case Drop(id, status) => id in rows && rows[id].call == Returned && (status == Cancelled || status == Deleted)
  }

  ghost function Next(rows: Rows, action: Action): Rows
    requires Enabled(rows, action)
  {
    match action
    case Insert(id, op) => rows[id := Row(op, First(0))]
    case Check(id) =>
      var row := rows[id];
      if LegPasses(rows, row.op, row.call.checked)
      then rows[id := row.(call := row.call.(checked := row.call.checked + 1))]
      else rows[id := row.(call := Failing)]
    case EnterHold(id) => rows[id := rows[id].(call := Second(0))]
    case SetHold(id) => rows[id := Row(rows[id].op.(status := Hold), Returned)]
    case Delete(id) => rows - {id}
    case Commit(id) => rows[id := rows[id].(op := rows[id].op.(status := Committed))]
    case Drop(id, status) => rows[id := rows[id].(op := rows[id].op.(status := status))]
  }

  ghost predicate RunEnabled(rows: Rows, actions: seq<Action>)
    decreases actions, 0
  {
    actions == [] ||
    var init := actions[..|actions| - 1];
    RunEnabled(rows, init) && Enabled(Run(rows, init), actions[|actions| - 1])
  }

  ghost function Run(rows: Rows, actions: seq<Action>): Rows
    requires RunEnabled(rows, actions)
    decreases actions, 1
  {
    if actions == [] then rows
    else Next(Run(rows, actions[..|actions| - 1]), actions[|actions| - 1])
  }

  // ----- A call that is not interrupted -----

  lemma ExtendRun(rows: Rows, actions: seq<Action>, action: Action)
    requires RunEnabled(rows, actions) && Enabled(Run(rows, actions), action)
    ensures RunEnabled(rows, actions + [action])
    ensures Run(rows, actions + [action]) == Next(Run(rows, actions), action)
  {
    assert (actions + [action])[..|actions|] == actions;
  }

  /** The leg of a newly inserted operation passes its check. */
  ghost predicate WouldPass(rows: Rows, id: OpId, op: Op, i: int) {
    0 <= i < |op.legs| && LegPasses(rows[id := Row(op, First(0))], op, i)
  }

  ghost predicate AllPassFrom(rows: Rows, id: OpId, op: Op, n: nat) {
    forall i :: n <= i < |op.legs| ==> WouldPass(rows, id, op, i)
  }

  /** The validation that has checked `n` legs goes on to the end, or to the leg that fails. */
  lemma {:induction false} CheckOn(rows: Rows, before: seq<Action>, id: OpId, op: Op, second: bool, n: nat)
    returns (actions: seq<Action>)
    requires RunEnabled(rows, before) && n <= |op.legs|
    requires Run(rows, before) == rows[id := Row(op, if second then Second(n) else First(n))]
    ensures RunEnabled(rows, actions)
    ensures Run(rows, actions) == rows[id := Row(op,
      if !AllPassFrom(rows, id, op, n) then Failing else if second then Second(|op.legs|) else First(|op.legs|))]
    decreases |op.legs| - n
  {
    hide LegPasses, RunEnabled, Run;
    actions := before;
    if n < |op.legs| {
      var row := Row(op, if second then Second(n) else First(n));
      SameLegs(rows, id, op, row.call, n);
      ExtendRun(rows, before, Check(id));
      actions := before + [Check(id)];
      if LegPasses(rows[id := row], op, n) {
        assert WouldPass(rows, id, op, n);
        assert AllPassFrom(rows, id, op, n) <==> AllPassFrom(rows, id, op, n + 1);
        actions := CheckOn(rows, actions, id, op, second, n + 1);
      } else {
        assert !WouldPass(rows, id, op, n);
      }
    }
  }

  /** What a check sees does not depend on the progress of the call. */
  lemma SameBook(rows: Rows, id: OpId, op: Op, call: Call)
    ensures BookOf(rows[id := Row(op, call)]) == BookOf(rows)[id := op]
  {
  }

  lemma SameLegs(rows: Rows, id: OpId, op: Op, call: Call, i: nat)
    requires i < |op.legs|
    ensures LegPasses(rows[id := Row(op, call)], op, i) <==> LegPasses(rows[id := Row(op, First(0))], op, i)
  {
    SameBook(rows, id, op, call);
    SameBook(rows, id, op, First(0));
  }

  lemma AllLegsPassIff(rows: Rows, id: OpId, op: Op)
    requires op.status == New
    ensures Acceptable(BookOf(rows), id, op) <==> AllPassFrom(rows, id, op, 0)
  {
    hide Balanced, SignOk, LegSum, Balance, InBounds;
    SameBook(rows, id, op, First(0));
    assert op.(status := New) == op;
    NoLegsBalanced(op.legs);
    if AllPassFrom(rows, id, op, 0) {
      forall leg | leg in op.legs
        ensures SignOk(leg) && InBounds(leg.account, Balance(BookOf(rows)[id := op], leg.account, true))
      {
        var i :| 0 <= i < |op.legs| && op.legs[i] == leg;
        assert WouldPass(rows, id, op, i);
      }
      assert op.legs != [] ==> WouldPass(rows, id, op, 0);
    }
  }

  lemma NoLegsBalanced(legs: seq<Leg>)
    ensures legs == [] ==> Balanced(legs)
  {
  }

  lemma Inserted(rows: Rows, id: OpId, op: Op) returns (actions: seq<Action>)
    requires id !in rows && op.status == New
    ensures RunEnabled(rows, actions) && Run(rows, actions) == rows[id := Row(op,
      if AllPassFrom(rows, id, op, 0) then First(|op.legs|) else Failing)]
  {
    hide LegPasses, AllPassFrom;
    actions := [];
    ExtendRun(rows, actions, Insert(id, op));
    actions := CheckOn(rows, actions + [Insert(id, op)], id, op, false, 0);
  }

  /** Left to itself, a call in the middle of any others leaves the table exactly as the sequential creation
      does: held when acceptable, unchanged otherwise. */
  lemma UninterruptedCallCreates(rows: Rows, id: OpId, op: Op) returns (actions: seq<Action>)
    requires id !in rows && op.status == New
    ensures RunEnabled(rows, actions) && BookOf(Run(rows, actions)) == Created(BookOf(rows), id, op, true)
  {
    hide LegPasses, Acceptable, AllPassFrom, RunEnabled, Run;
    AllLegsPassIff(rows, id, op);
    actions := Inserted(rows, id, op);
    if Acceptable(BookOf(rows), id, op) {
      ExtendRun(rows, actions, EnterHold(id));
      actions := CheckOn(rows, actions + [EnterHold(id)], id, op, true, 0);
      ExtendRun(rows, actions, SetHold(id));
      actions := actions + [SetHold(id)];
      SameBook(rows, id, op.(status := Hold), Returned);
    } else {
      ExtendRun(rows, actions, Delete(id));
      actions := actions + [Delete(id)];
      assert rows[id := Row(op, Failing)] - {id} == rows;
    }
  }

  /** The later changes of status are those of the sequential ledger. */
  lemma StatusActions(rows: Rows, id: OpId, status: Status)
    requires id in rows && rows[id].call == Returned
    ensures rows[id].op.status == Hold ==>
      Enabled(rows, Commit(id)) && BookOf(Next(rows, Commit(id))) == WithStatus(BookOf(rows), id, Committed)
    ensures status == Cancelled || status == Deleted ==>
      Enabled(rows, Drop(id, status)) && BookOf(Next(rows, Drop(id, status))) == WithStatus(BookOf(rows), id, status)
  {
  }

  // ----- The sum of checked, held and committed legs -----

  /** An amount seen from the side on which the account is bounded. */
  function Facing(a: Account, amount: int): int {
    if a.kind == Passive then -amount else amount
  }

  /** The operation is no net credit to the bounded account. */
  predicate Lowers(op: Op, a: Account) {
    Facing(a, LegSum(op.legs, a)) <= 0
  }

  /** The operation is held or committed, or it lowers the account and its call has already seen the
      account within bounds. */
  predicate Cleared(row: Row, a: Account) {
    match row.call
    case First(n) => Lowers(row.op, a) && exists k :: 0 <= k < n && k < |row.op.legs| && row.op.legs[k].account == a
    case Second(_) => Lowers(row.op, a)
    case Failing => false
    case Returned => row.op.status == Hold || row.op.status == Committed
  }

  function ClearedWeight(a: Account): Row -> int {
    (row: Row) => if Cleared(row, a) then Facing(a, LegSum(row.op.legs, a)) else 0
  }

  /** The contribution of a row to the balance of `calculate_balance`, seen from the bounded side. */
  function FacingWeight(a: Account, includeNew: bool): Row -> int {
    (row: Row) => if row.op.status in Counted(includeNew) then Facing(a, LegSum(row.op.legs, a)) else 0
  }

  /** The status of a row agrees with the progress of its call. */
  predicate Consistent(row: Row) {
    && (row.call != Returned ==> row.op.status == New)
    && (row.call == Returned ==> row.op.status != New)
    && (row.call.First? || row.call.Second? ==> row.call.checked <= |row.op.legs|)
  }

  /** What is cleared on the bounded account is within bounds. */
  ghost predicate Safe(rows: Rows, a: Account) {
    && (forall id :: id in rows ==> Consistent(rows[id]))
    && Total(rows, ClearedWeight(a)) >= 0
  }

  predicate NoCreditInFlight(rows: Rows, a: Account) {
    forall id :: id in rows && rows[id].call != Returned ==> Lowers(rows[id].op, a)
  }

  /** Whenever an operation that lowers the account is checked against it, no credit to the account is
      in flight; and no credit to it is dropped. */
  predicate Undisturbed(rows: Rows, action: Action, a: Account) {
    match action
    case Check(id) =>
      id in rows && rows[id].call.First? && rows[id].call.checked < |rows[id].op.legs|
      && rows[id].op.legs[rows[id].call.checked].account == a && Lowers(rows[id].op, a)
      ==> NoCreditInFlight(rows, a)
    case Drop(id, _) => id in rows ==> Lowers(rows[id].op, a)
    case _ => true
  }

  ghost predicate UndisturbedRun(rows: Rows, actions: seq<Action>, a: Account)
    requires RunEnabled(rows, actions)
  {
    actions == [] ||
    var init := actions[..|actions| - 1];
    UndisturbedRun(rows, init, a) && Undisturbed(Run(rows, init), actions[|actions| - 1], a)
  }

  function OnOp(w: Op -> int): Row -> int {
    (row: Row) => w(row.op)
  }

  lemma {:induction false} BookTotal(rows: Rows, w: Op -> int)
    ensures Total(BookOf(rows), w) == Total(rows, OnOp(w))
    decreases |rows|
  {
    if rows == map[] {
      assert BookOf(rows) == map[];
    } else {
      var id :| id in rows;
      BookTotal(rows - {id}, w);
      assert BookOf(rows - {id}) == BookOf(rows) - {id};
      TotalSplit(rows, id, OnOp(w));
      TotalSplit(BookOf(rows), id, w);
    }
  }

  /** The balance a check reads is the sum of the legs of all rows, seen from the bounded side. */
  lemma SeenBalance(rows: Rows, a: Account, includeNew: bool)
    ensures Facing(a, Balance(BookOf(rows), a, includeNew)) == Total(rows, FacingWeight(a, includeNew))
  {
    var w := LegWeight(StatusRule(Counted(includeNew)), a);
    BookTotal(rows, w);
    forall id | id in rows ensures FacingWeight(a, includeNew)(rows[id]) == Facing(a, OnOp(w)(rows[id])) {
    }
    if a.kind == Passive {
      TotalNegate(rows, OnOp(w), FacingWeight(a, includeNew));
    } else {
      TotalSame(rows, OnOp(w), FacingWeight(a, includeNew));
    }
  }

  /** What is cleared of a row is at most its part of the balance of held and committed operations, and
      at least what a check sees of it, unless it is a credit in flight. */
  lemma SeenAtMostCleared(row: Row, a: Account)
    requires Consistent(row)
    ensures ClearedWeight(a)(row) <= FacingWeight(a, false)(row)
    ensures row.call == Returned || Lowers(row.op, a) ==> FacingWeight(a, true)(row) <= ClearedWeight(a)(row)
  {
    match row.op.status case New => case Hold => case Committed => case Cancelled => case Deleted =>
  }

  /** At the moment a check passes, the operations already cleared together with the one being
      checked are within bounds: all others in flight only lower the balance that was read. */
  lemma CheckPasses(rows: Rows, id: OpId, a: Account)
    requires Safe(rows, a) && Enabled(rows, Check(id)) && a.kind != Normal && NoCreditInFlight(rows, a)
    requires LegPasses(rows, rows[id].op, rows[id].call.checked)
    requires rows[id].op.legs[rows[id].call.checked].account == a
    ensures Total(Next(rows, Check(id)), ClearedWeight(a)) >= 0
  {
    var row, rows' := rows[id], Next(rows, Check(id));
    var row' := rows'[id];
    SeenBalance(rows, a, true);
    assert Facing(a, Balance(BookOf(rows), a, true)) >= 0;
    TotalWrite(rows, id, row', FacingWeight(a, true));
    forall j | j in rows' ensures FacingWeight(a, true)(rows'[j]) <= ClearedWeight(a)(rows'[j]) {
      assert rows'[j].op == rows[j].op;
      SeenAtMostCleared(rows'[j], a);
    }
    TotalMono(rows', FacingWeight(a, true), ClearedWeight(a));
  }

  /** A call that has checked every leg has seen every account the operation touches. */
  lemma AllCheckedCleared(row: Row, a: Account)
    requires row.call == First(|row.op.legs|)
    ensures ClearedWeight(a)(row.(call := Second(0))) == ClearedWeight(a)(row)
  {
    if Lowers(row.op, a) && !Cleared(row, a) {
      forall leg | leg in row.op.legs ensures leg.account != a {
        var k :| 0 <= k < |row.op.legs| && row.op.legs[k] == leg;
      }
      NoLegOnAccount(row.op.legs, a);
    }
  }

  /** Failing, checking a leg on another account, checking a credit, or checking once more clears
      nothing new on `a`. */
  lemma OtherCheck(row: Row, row': Row, a: Account)
    requires row.call.First? || row.call.Second?
    requires row' == row.(call := row.call.(checked := row.call.checked + 1)) || row' == row.(call := Failing)
    requires row.call.First? && row'.call.First? && row.call.checked < |row.op.legs|
         ==> row.op.legs[row.call.checked].account != a || !Lowers(row.op, a)
    ensures ClearedWeight(a)(row') >= ClearedWeight(a)(row)
  {
    if row.call.First? && Cleared(row', a) {
      var k :| 0 <= k < row'.call.checked && k < |row'.op.legs| && row'.op.legs[k].account == a;
      assert k != row.call.checked;
      assert Cleared(row, a);
    }
    assert Cleared(row, a) ==> Lowers(row.op, a);
  }

  /** Rewriting a row that keeps its consistency and does not lower what is cleared. */
  lemma RewriteSafe(rows: Rows, id: OpId, row: Row, a: Account)
    requires Safe(rows, a) && Consistent(row)
    requires ClearedWeight(a)(row) >= if id in rows then ClearedWeight(a)(rows[id]) else 0
    ensures Safe(rows[id := row], a)
  {
    TotalWrite(rows, id, row, ClearedWeight(a));
  }

  lemma CheckSafe(rows: Rows, id: OpId, a: Account)
    requires Safe(rows, a) && a.kind != Normal && Enabled(rows, Check(id)) && Undisturbed(rows, Check(id), a)
    ensures Safe(Next(rows, Check(id)), a)
  {
    hide LegPasses, Cleared, ClearedWeight;
    var row, row' := rows[id], Next(rows, Check(id))[id];
    if row.call.First? && row'.call.First? && row.op.legs[row.call.checked].account == a && Lowers(row.op, a) {
      CheckPasses(rows, id, a);
    } else {
      OtherCheck(row, row', a);
      RewriteSafe(rows, id, row', a);
    }
  }

  lemma NextSafe(rows: Rows, action: Action, a: Account)
    requires Safe(rows, a) && a.kind != Normal && Enabled(rows, action) && Undisturbed(rows, action, a)
    ensures Safe(Next(rows, action), a)
  {
    match action {
      case Insert(id, op) => RewriteSafe(rows, id, Row(op, First(0)), a);
      case Check(id) => CheckSafe(rows, id, a);
      case EnterHold(id) =>
        AllCheckedCleared(rows[id], a);
        RewriteSafe(rows, id, rows[id].(call := Second(0)), a);
      case SetHold(id) => RewriteSafe(rows, id, Row(rows[id].op.(status := Hold), Returned), a);
      case Delete(id) => TotalSplit(rows, id, ClearedWeight(a));
      case Commit(id) => RewriteSafe(rows, id, rows[id].(op := rows[id].op.(status := Committed)), a);
      case Drop(id, status) => RewriteSafe(rows, id, rows[id].(op := rows[id].op.(status := status)), a);
    }
  }

  lemma {:induction false} RunSafe(rows: Rows, actions: seq<Action>, a: Account)
    requires Safe(rows, a) && a.kind != Normal && RunEnabled(rows, actions) && UndisturbedRun(rows, actions, a)
    ensures Safe(Run(rows, actions), a)
  {
    hide Safe, Undisturbed, Enabled, Next;
    if actions != [] {
      var init := actions[..|actions| - 1];
      RunSafe(rows, init, a);
      NextSafe(Run(rows, init), actions[|actions| - 1], a);
    }
  }

  /** For any number of interleaved calls: as long as no debit is checked while a credit to the account
      is in flight, the checked debits together with everything held and committed stay within bounds,
      and so does the balance of held and committed operations alone. */
  lemma {:induction false} ConcurrentSafety(rows: Rows, actions: seq<Action>, a: Account)
    requires Safe(rows, a) && a.kind != Normal && RunEnabled(rows, actions) && UndisturbedRun(rows, actions, a)
    ensures Total(Run(rows, actions), ClearedWeight(a)) >= 0
    ensures InBounds(a, Balance(BookOf(Run(rows, actions)), a, false))
  {
    RunSafe(rows, actions, a);
    var rows' := Run(rows, actions);
    forall id | id in rows' ensures ClearedWeight(a)(rows'[id]) <= FacingWeight(a, false)(rows'[id]) {
      SeenAtMostCleared(rows'[id], a);
    }
    TotalMono(rows', ClearedWeight(a), FacingWeight(a, false));
    SeenBalance(rows', a, false);
  }

  lemma NextLowers(rows: Rows, action: Action, a: Account)
    requires Enabled(rows, action) && NoCreditInFlight(rows, a) && (action.Insert? ==> Lowers(action.op, a))
    ensures NoCreditInFlight(Next(rows, action), a)
    ensures forall id :: id in Next(rows, action) && (id in rows ==> Lowers(rows[id].op, a)) ==>
      Lowers(Next(rows, action)[id].op, a)
    ensures forall id :: id in Next(rows, action) && id !in rows ==> Lowers(Next(rows, action)[id].op, a)
  {
    hide LegPasses, LegSum;
  }

  /** In particular when every operation inserted or dropped lowers the account. */
  lemma {:induction false} NoCreditsAreUndisturbed(rows: Rows, actions: seq<Action>, a: Account)
    requires RunEnabled(rows, actions) && NoCreditInFlight(rows, a)
    requires forall action :: action in actions ==>
      && (action.Insert? ==> Lowers(action.op, a))
      && (action.Drop? && action.id in rows ==> Lowers(rows[action.id].op, a))
    ensures UndisturbedRun(rows, actions, a) && NoCreditInFlight(Run(rows, actions), a)
    ensures forall id :: id in Run(rows, actions) && (id in rows ==> Lowers(rows[id].op, a)) ==>
      Lowers(Run(rows, actions)[id].op, a)
  {
    hide LegPasses, Lowers, Enabled, Next, NoCreditInFlight;
    if actions != [] {
      var init, last := actions[..|actions| - 1], actions[|actions| - 1];
      assert last in actions;
      NoCreditsAreUndisturbed(rows, init, a);
      NextLowers(Run(rows, init), last, a);
    }
  }

  // ----- What every interleaving vets -----

  /** A call past its first validation has seen its legs balance and keep the sign rule. */
  predicate Vetted(row: Row) {
    match row.call
    case First(n) =>
      n <= |row.op.legs| && (n > 0 ==> Balanced(row.op.legs)) && forall k :: 0 <= k < n ==> SignOk(row.op.legs[k])
    case Second(_) => Balanced(row.op.legs) && SignsOk(row.op.legs)
    case Failing => true
    case Returned => Balanced(row.op.legs) && SignsOk(row.op.legs)
  }

  ghost predicate AllVetted(rows: Rows) {
    forall id :: id in rows ==> Vetted(rows[id]) && Consistent(rows[id])
  }

  lemma CheckVetted(rows: Rows, id: OpId)
    requires id in rows && Vetted(rows[id]) && Consistent(rows[id]) && Enabled(rows, Check(id))
    ensures Vetted(Next(rows, Check(id))[id]) && Consistent(Next(rows, Check(id))[id])
  {
    hide Balanced, SignOk;
  }

  lemma EnterHoldVetted(row: Row)
    requires Vetted(row) && row.call == First(|row.op.legs|)
    ensures Balanced(row.op.legs) && SignsOk(row.op.legs)
  {
  }

  lemma NextVetted(rows: Rows, action: Action)
    requires AllVetted(rows) && Enabled(rows, action)
    ensures AllVetted(Next(rows, action))
  {
    hide Balanced, SignsOk, SignOk, LegPasses;
    match action {
      case Insert(_, _) =>
      case Check(id) => CheckVetted(rows, id);
      case EnterHold(id) => EnterHoldVetted(rows[id]);
      case SetHold(id) => assert Vetted(rows[id]);
      case Delete(_) =>
      case Commit(id) => assert Vetted(rows[id]);
      case Drop(id, _) => assert Vetted(rows[id]);
    }
  }

  lemma {:induction false} RunVetted(rows: Rows, actions: seq<Action>)
    requires AllVetted(rows) && RunEnabled(rows, actions)
    ensures AllVetted(Run(rows, actions))
  {
    hide AllVetted, Enabled, Next;
    if actions != [] {
      var init := actions[..|actions| - 1];
      RunVetted(rows, init);
      NextVetted(Run(rows, init), actions[|actions| - 1]);
    }
  }

  lemma CountedVetted(actions: seq<Action>, id: OpId)
    requires RunEnabled(map[], actions) && id in BookOf(Run(map[], actions))
    requires BookOf(Run(map[], actions))[id].status in Counted(false)
    ensures Balanced(BookOf(Run(map[], actions))[id].legs) && SignsOk(BookOf(Run(map[], actions))[id].legs)
  {
    RunVetted(map[], actions);
    var rows := Run(map[], actions);
    assert Vetted(rows[id]) && Consistent(rows[id]);
  }

  /** Under every interleaving, whatever credits are in flight, the balances of held and committed
      operations conserve every asset. */
  lemma ConcurrentConservation(actions: seq<Action>, asset: Asset, accounts: set<Account>)
    requires RunEnabled(map[], actions) && Covers(accounts, asset, BookOf(Run(map[], actions)))
    ensures SetSum(accounts, Balances(BookOf(Run(map[], actions)), StatusRule(Counted(false)))) == 0
  {
    var book := BookOf(Run(map[], actions));
    forall id | id in book && book[id].status in Counted(false) ensures Balanced(book[id].legs) {
      CountedVetted(actions, id);
    }
    BalancesSumToZero(book, StatusRule(Counted(false)), asset, accounts);
  }

  /** And they respect strict accounts. */
  lemma StrictConcurrently(actions: seq<Action>, a: Account)
    requires RunEnabled(map[], actions) && a.strict
    ensures InBounds(a, Balance(BookOf(Run(map[], actions)), a, false))
  {
    var book := BookOf(Run(map[], actions));
    forall id | id in book && book[id].status in Counted(false) ensures SignsOk(book[id].legs) {
      CountedVetted(actions, id);
    }
    CountedStrictInBounds(book, a, Counted(false));
  }

  // ----- Which credit is safe in flight -----

  /** A deposit or an exchange as the manager posts it. */
  ghost predicate Posted(op: Op) {
    || (exists d :: DepositAllowed(d) && op == DepositOp(d))
    || (exists e :: ExchangeAllowed(e) && op == ExchangeOp(e))
  }

  /** A run next to the operation `c`: apart from it only operations that lower the account are inserted,
      deposits and exchanges unless `any` is set; returned ones are dropped only if `drops` is set. */
  ghost predicate Beside(action: Action, c: Op, a: Account, any: bool, drops: bool) {
    match action
    case Insert(_, op) => op == c || (Lowers(op, a) && (any || Posted(op)))
    case Drop(_, _) => drops
    case _ => true
  }

  ghost predicate AllBeside(actions: seq<Action>, c: Op, a: Account, any: bool, drops: bool) {
    forall action :: action in actions ==> Beside(action, c, a, any, drops)
  }

  ghost predicate AlwaysWithin(c: Op, a: Account, any: bool, drops: bool) {
    forall actions: seq<Action> :: RunEnabled(map[], actions) && AllBeside(actions, c, a, any, drops) ==>
      InBounds(a, Balance(BookOf(Run(map[], actions)), a, false))
  }

  function Uuids(legs: seq<Leg>): string {
    if legs == [] then "'" else Uuids(legs[..|legs| - 1]) + legs[|legs| - 1].account.uuid
  }

  /** The counterparty of the debits: an account of its own, without bounds. */
  function Bank(c: Op, a: Account): Account {
    Account(a.uuid + Uuids(c.legs), a.asset, Normal, false)
  }

  lemma {:induction false} UuidsLonger(legs: seq<Leg>)
    ensures |Uuids(legs)| > 0 && forall leg :: leg in legs ==> |leg.account.uuid| < |Uuids(legs)|
  {
    if legs != [] {
      UuidsLonger(legs[..|legs| - 1]);
    }
  }

  /** Its key is none of the other accounts'. */
  lemma BankIsNew(c: Op, a: Account)
    ensures Bank(c, a).uuid != a.uuid && forall leg :: leg in c.legs ==> Bank(c, a).uuid != leg.account.uuid
  {
    UuidsLonger(c.legs);
  }

  /** The deposit that takes from the account what `c` would bring. */
  function Debit(c: Op, a: Account): Op { DepositOp(Moving(a, Bank(c, a), -LegSum(c.legs, a))) }

  lemma DebitFacts(c: Op, a: Account)
    requires a.kind != Normal && !a.strict && !Lowers(c, a)
    ensures Facing(a, LegSum(Debit(c, a).legs, a)) == -Facing(a, LegSum(c.legs, a))
    ensures Balanced(Debit(c, a).legs) && SignsOk(Debit(c, a).legs) && |Debit(c, a).legs| == 2
    ensures forall leg :: leg in Debit(c, a).legs ==> leg.account == a || leg.account == Bank(c, a)
    ensures Posted(Debit(c, a)) && Debit(c, a).status == New
  {
    hide LegSum, DepositLegs, Balanced, SignsOk;
    MovingFacts(a, Bank(c, a), -LegSum(c.legs, a), a);
  }

  /** One more action at the end of a run beside `c`. */
  lemma Extend(actions: seq<Action>, action: Action, c: Op, a: Account) returns (longer: seq<Action>)
    requires RunEnabled(map[], actions) && Enabled(Run(map[], actions), action) && Beside(action, c, a, false, false)
    requires AllBeside(actions, c, a, false, false)
    ensures RunEnabled(map[], longer) && Run(map[], longer) == Next(Run(map[], actions), action)
    ensures AllBeside(longer, c, a, false, false)
  {
    longer := actions + [action];
    assert longer[..|longer| - 1] == actions;
  }

  /** The credit not yet checked, and the debit at some stage of its call. */
  function Pair(c: Op, debit: Row): Rows {
    map["c" := Row(c, First(0)), "d" := debit]
  }

  lemma PairBalance(c: Op, debit: Row, a: Account, includeNew: bool)
    ensures Facing(a, Balance(BookOf(Pair(c, debit)), a, includeNew))
         == FacingWeight(a, includeNew)(Row(c, First(0))) + FacingWeight(a, includeNew)(debit)
  {
    var none: Rows, w := map[], FacingWeight(a, includeNew);
    SeenBalance(Pair(c, debit), a, includeNew);
    assert Pair(c, debit) == none["c" := Row(c, First(0))]["d" := debit];
    TotalWrite(none["c" := Row(c, First(0))], "d", debit, w);
    TotalWrite(none, "c", Row(c, First(0)), w);
  }

  lemma PairInBounds(c: Op, a: Account, call: Call)
    requires a.kind != Normal && !a.strict && c.status == New && !Lowers(c, a)
    ensures InBounds(a, Balance(BookOf(Pair(c, Row(Debit(c, a), call))), a, true))
  {
    hide LegSum, Balance, BookOf, Pair, Debit, Balanced, SignsOk;
    DebitFacts(c, a);
    PairBalance(c, Row(Debit(c, a), call), a, true);
  }

  lemma DebitLegPasses(c: Op, a: Account, call: Call)
    requires a.kind != Normal && !a.strict && c.status == New && !Lowers(c, a)
    requires (call.First? || call.Second?) && call.checked < 2 && |Debit(c, a).legs| == 2
    ensures LegPasses(Pair(c, Row(Debit(c, a), call)), Debit(c, a), call.checked)
  {
    hide LegSum, Balance, BookOf, Pair, Balanced, Lowers;
    DebitFacts(c, a);
    PairInBounds(c, a, call);
    var leg := Debit(c, a).legs[call.checked];
    assert leg in Debit(c, a).legs;
  }

  /** While the credit is in flight, a debit of the same amount passes every check. */
  lemma DebitPasses(c: Op, a: Account, call: Call)
    requires a.kind != Normal && !a.strict && c.status == New && !Lowers(c, a)
    requires (call.First? || call.Second?) && call.checked < 2
    ensures var debit := Debit(c, a);
      && Enabled(Pair(c, Row(debit, call)), Check("d"))
      && Next(Pair(c, Row(debit, call)), Check("d")) == Pair(c, Row(debit, call.(checked := call.checked + 1)))
  {
    hide LegPasses, Debit, LegSum;
    DebitFacts(c, a);
    DebitLegPasses(c, a, call);
  }

  lemma DebitChecks(c: Op, a: Account, before: seq<Action>, call: Call) returns (actions: seq<Action>)
    requires a.kind != Normal && !a.strict && c.status == New && !Lowers(c, a)
    requires call == First(0) || call == Second(0)
    requires RunEnabled(map[], before) && AllBeside(before, c, a, false, false)
    requires Run(map[], before) == Pair(c, Row(Debit(c, a), call))
    ensures RunEnabled(map[], actions) && AllBeside(actions, c, a, false, false)
    ensures Run(map[], actions) == Pair(c, Row(Debit(c, a), call.(checked := 2)))
  {
    hide Pair, Debit, LegSum, Lowers, Enabled, Next, RunEnabled, Run;
    DebitPasses(c, a, call);
    actions := Extend(before, Check("d"), c, a);
    DebitPasses(c, a, call.(checked := 1));
    actions := Extend(actions, Check("d"), c, a);
  }

  /** The steps around the checks. */
  lemma PairMoves(c: Op, debit: Op)
    requires c.status == New && debit.status == New && |debit.legs| == 2
    ensures Next(Next(map[], Insert("c", c)), Insert("d", debit)) == Pair(c, Row(debit, First(0)))
    ensures Enabled(Pair(c, Row(debit, First(2))), EnterHold("d"))
    ensures Next(Pair(c, Row(debit, First(2))), EnterHold("d")) == Pair(c, Row(debit, Second(0)))
    ensures Enabled(Pair(c, Row(debit, Second(2))), SetHold("d"))
    ensures Next(Pair(c, Row(debit, Second(2))), SetHold("d")) == Pair(c, Row(debit.(status := Hold), Returned))
  {
  }

  /** So the debit is held before the credit is checked at all. */
  lemma DebitGetsHeld(c: Op, a: Account) returns (actions: seq<Action>)
    requires a.kind != Normal && !a.strict && c.status == New && !Lowers(c, a)
    ensures RunEnabled(map[], actions) && AllBeside(actions, c, a, false, false)
    ensures Run(map[], actions) == Pair(c, Row(Debit(c, a).(status := Hold), Returned))
  {
    hide RunEnabled, Run, LegPasses, LegSum, Pair, Debit, Posted, Balanced, SignsOk;
    DebitFacts(c, a);
    PairMoves(c, Debit(c, a));
    EmptyRun();
    actions := Extend([], Insert("c", c), c, a);
    actions := Extend(actions, Insert("d", Debit(c, a)), c, a);
    actions := DebitChecks(c, a, actions, First(0));
    actions := Extend(actions, EnterHold("d"), c, a);
    actions := DebitChecks(c, a, actions, Second(0));
    actions := Extend(actions, SetHold("d"), c, a);
  }

  lemma EmptyRun()
    ensures RunEnabled(map[], []) && Run(map[], []) == map[]
  {
  }

  /** A second debit has been inserted as well: the account is out of bounds for every check. */
  function Crowd(c: Op, a: Account, call: Call): Rows {
    var debit := Debit(c, a);
    map["c" := Row(c, call), "d" := Row(debit.(status := Hold), Returned), "e" := Row(debit, First(0))]
  }

  /** With the credit gone, or not counted, the held debit alone is out of bounds. */
  lemma CrowdBalance(c: Op, a: Account, call: Call, includeNew: bool)
    requires a.kind != Normal && !a.strict && c.status == New && !Lowers(c, a)
    ensures !InBounds(a, Balance(BookOf(Crowd(c, a, call)), a, includeNew))
  {
    hide LegSum;
    var none: Rows, w, rows := map[], FacingWeight(a, includeNew), Crowd(c, a, call);
    var debit := Debit(c, a);
    var held := Row(debit.(status := Hold), Returned);
    DebitFacts(c, a);
    SeenBalance(rows, a, includeNew);
    assert rows == none["c" := Row(c, call)]["d" := held]["e" := Row(debit, First(0))];
    TotalWrite(none["c" := Row(c, call)]["d" := held], "e", Row(debit, First(0)), w);
    TotalWrite(none["c" := Row(c, call)], "d", held, w);
    TotalWrite(none, "c", Row(c, call), w);
  }

  lemma CreditMoves(c: Op, a: Account, n: nat)
    requires c.status == New && n < |c.legs|
    ensures Enabled(Crowd(c, a, First(n)), Check("c"))
    ensures Next(Crowd(c, a, First(n)), Check("c"))
         == Crowd(c, a, if LegPasses(Crowd(c, a, First(n)), c, n) then First(n + 1) else Failing)
  {
    hide LegPasses, Debit, Facing, LegSum;
  }

  lemma CreditStep(c: Op, a: Account, n: nat)
    requires a.kind != Normal && !a.strict && c.status == New && !Lowers(c, a) && n < |c.legs|
    ensures Enabled(Crowd(c, a, First(n)), Check("c"))
    ensures Next(Crowd(c, a, First(n)), Check("c")) == Crowd(c, a, First(n + 1))
         || Next(Crowd(c, a, First(n)), Check("c")) == Crowd(c, a, Failing)
    ensures c.legs[n].account == a ==> Next(Crowd(c, a, First(n)), Check("c")) == Crowd(c, a, Failing)
  {
    hide Crowd, Enabled, Next, BookOf, Balance, Lowers, Balanced, SignOk;
    CreditMoves(c, a, n);
    CrowdBalance(c, a, First(n), true);
  }

  /** The credit, checked from its leg `n` on, fails at the latest at its leg on the account. */
  lemma {:induction false} CreditFails(c: Op, a: Account, before: seq<Action>, n: nat, k: nat)
    returns (actions: seq<Action>)
    requires a.kind != Normal && !a.strict && c.status == New && !Lowers(c, a)
    requires n <= k < |c.legs| && c.legs[k].account == a
    requires RunEnabled(map[], before) && AllBeside(before, c, a, false, false)
    requires Run(map[], before) == Crowd(c, a, First(n))
    ensures RunEnabled(map[], actions) && AllBeside(actions, c, a, false, false)
    ensures Run(map[], actions) == Crowd(c, a, Failing)
    decreases k - n
  {
    hide RunEnabled, Run, Enabled, Next, Crowd, Lowers;
    CreditStep(c, a, n);
    actions := Extend(before, Check("c"), c, a);
    if Next(Crowd(c, a, First(n)), Check("c")) != Crowd(c, a, Failing) {
      actions := CreditFails(c, a, actions, n + 1, k);
    }
  }

  lemma LegOn(legs: seq<Leg>, a: Account) returns (k: nat)
    requires LegSum(legs, a) != 0
    ensures k < |legs| && legs[k].account == a
  {
    if forall leg :: leg in legs ==> leg.account != a {
      NoLegOnAccount(legs, a);
    }
    k :| k < |legs| && legs[k].account == a;
  }

  /** Every net credit to a non-strict account, valid or not, can let a debit through while it is in flight
      and then fail: a second debit makes its own check fail. No operation is dropped. */
  lemma CreditInFlightCanOverdraw(c: Op, a: Account) returns (actions: seq<Action>)
    requires a.kind != Normal && !a.strict && c.status == New && !Lowers(c, a)
    ensures RunEnabled(map[], actions) && AllBeside(actions, c, a, false, false)
    ensures !InBounds(a, Balance(BookOf(Run(map[], actions)), a, false))
  {
    hide RunEnabled, Run, LegSum;
    var debit := Debit(c, a);
    DebitFacts(c, a);
    actions := DebitGetsHeld(c, a);
    actions := Extend(actions, Insert("e", debit), c, a);
    assert Run(map[], actions) == Crowd(c, a, First(0));
    var k := LegOn(c.legs, a);
    actions := CreditFails(c, a, actions, 0, k);
    actions := Extend(actions, Delete("c"), c, a);
    WithoutCredit(c, a);
  }

  lemma WithoutCredit(c: Op, a: Account)
    requires a.kind != Normal && !a.strict && c.status == New && !Lowers(c, a)
    ensures !InBounds(a, Balance(BookOf(Crowd(c, a, Failing) - {"c"}), a, false))
  {
    hide LegSum;
    var rows, w := Crowd(c, a, Failing), FacingWeight(a, false);
    CrowdBalance(c, a, Failing, false);
    SeenBalance(rows, a, false);
    SeenBalance(rows - {"c"}, a, false);
    TotalSplit(rows, "c", w);
  }

  /** Whatever is interleaved with the creation of `c`, as long as it lowers the account, leaves the account
      within bounds if and only if the account is unbounded or strict or `c` lowers it too. */
  lemma ConcurrentlySafeIff(c: Op, a: Account, any: bool, drops: bool)
    requires c.status == New
    ensures AlwaysWithin(c, a, any, drops) <==> a.kind == Normal || a.strict || Lowers(c, a)
  {
    hide RunEnabled, Run, LegSum, Balance;
    if a.kind != Normal && !a.strict && !Lowers(c, a) {
      var actions := CreditInFlightCanOverdraw(c, a);
      assert AllBeside(actions, c, a, any, drops);
    } else if a.kind != Normal {
      forall actions: seq<Action> | RunEnabled(map[], actions) && AllBeside(actions, c, a, any, drops)
        ensures InBounds(a, Balance(BookOf(Run(map[], actions)), a, false))
      {
        StaysWithin(c, a, any, drops, actions);
      }
    }
  }

  lemma StaysWithin(c: Op, a: Account, any: bool, drops: bool, actions: seq<Action>)
    requires a.kind != Normal && (a.strict || Lowers(c, a))
    requires RunEnabled(map[], actions) && AllBeside(actions, c, a, any, drops)
    ensures InBounds(a, Balance(BookOf(Run(map[], actions)), a, false))
  {
    hide RunEnabled, Run, LegSum, Balance;
    var none: Rows := map[];
    if a.strict {
      StrictConcurrently(actions, a);
    } else {
      assert Safe(none, a);
      NoCreditsAreUndisturbed(none, actions, a);
      ConcurrentSafety(none, actions, a);
    }
  }
}
