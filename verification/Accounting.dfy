/** Accounts, operations and their signed legs, and the balances counted over a table of operations.
    Money is an integer number of millionths, the precision of the database column. */
module Accounting {
  import opened Sums

  datatype AssetKind = Fiat | Crypto | Token
  datatype Asset = Asset(symbol: string, kind: AssetKind, decimals: nat)

  datatype AccountKind = Normal | Active | Passive
  datatype Account = Account(uuid: string, asset: Asset, kind: AccountKind, strict: bool)

  datatype Status = New | Hold | Committed | Cancelled | Deleted
  datatype Kind = Deposit | Withdrawal | Buy | Sell | Correction | Refund

  datatype Leg = Leg(account: Account, amount: int)
  datatype Op = Op(kind: Kind, status: Status, legs: seq<Leg>, references: map<string, string>)

  /** An operation is identified by the text of its UUID. */
  type OpId = string
  type Book = map<OpId, Op>

  // ----- Sums over the legs of one operation -----

  /** The net amount the legs move into account `a`. */
  function LegSum(legs: seq<Leg>, a: Account): int {
    if legs == [] then 0
    else
      var last := legs[|legs| - 1];
      LegSum(legs[..|legs| - 1], a) + if last.account == a then last.amount else 0
  }

  /** The net amount of the legs posted in `asset`. */
  function AssetSum(legs: seq<Leg>, asset: Asset): int {
    if legs == [] then 0
    else
      var last := legs[|legs| - 1];
      AssetSum(legs[..|legs| - 1], asset) + if last.account.asset == asset then last.amount else 0
  }

  lemma {:induction false} LegSumConcat(front: seq<Leg>, back: seq<Leg>, a: Account)
    ensures LegSum(front + back, a) == LegSum(front, a) + LegSum(back, a)
  {
    if back == [] {
      assert front + back == front;
    } else {
      assert (front + back)[..|front + back| - 1] == front + back[..|back| - 1];
      LegSumConcat(front, back[..|back| - 1], a);
    }
  }

  lemma {:induction false} AssetSumConcat(front: seq<Leg>, back: seq<Leg>, asset: Asset)
    ensures AssetSum(front + back, asset) == AssetSum(front, asset) + AssetSum(back, asset)
  {
    if back == [] {
      assert front + back == front;
    } else {
      assert (front + back)[..|front + back| - 1] == front + back[..|back| - 1];
      AssetSumConcat(front, back[..|back| - 1], asset);
    }
  }

  /** A pair of legs moving `amount` from one account to another. */
  function Transfer(from: Account, to: Account, amount: int): seq<Leg> {
    [Leg(from, -amount), Leg(to, amount)]
  }

  lemma TransferSums(from: Account, to: Account, amount: int, a: Account, asset: Asset)
    ensures LegSum(Transfer(from, to, amount), a)
         == (if to == a then amount else 0) - (if from == a then amount else 0)
    ensures AssetSum(Transfer(from, to, amount), asset)
         == (if to.asset == asset then amount else 0) - (if from.asset == asset then amount else 0)
  {
    var debit, credit := [Leg(from, -amount)], [Leg(to, amount)];
    assert Transfer(from, to, amount) == debit + credit;
    LegSumConcat(debit, credit, a);
    AssetSumConcat(debit, credit, asset);
  }

  lemma {:induction false} NoLegOnAccount(legs: seq<Leg>, a: Account)
    requires forall leg :: leg in legs ==> leg.account != a
    ensures LegSum(legs, a) == 0
  {
    if legs != [] {
      NoLegOnAccount(legs[..|legs| - 1], a);
    }
  }

  lemma {:induction false} NoLegInAsset(legs: seq<Leg>, asset: Asset)
    requires forall leg :: leg in legs ==> leg.account.asset != asset
    ensures AssetSum(legs, asset) == 0
  {
    if legs != [] {
      NoLegInAsset(legs[..|legs| - 1], asset);
    }
  }

  /** The net amounts the legs move, by account. */
  function LegSums(legs: seq<Leg>): Account -> int {
    (a: Account) => LegSum(legs, a)
  }

  /** Every leg in an asset is on exactly one of the accounts of that asset. */
  lemma {:induction false} AssetSumByAccount(legs: seq<Leg>, asset: Asset, accounts: set<Account>)
    requires forall a :: a in accounts ==> a.asset == asset
    requires forall leg :: leg in legs && leg.account.asset == asset ==> leg.account in accounts
    ensures SetSum(accounts, LegSums(legs)) == AssetSum(legs, asset)
  {
    if legs == [] {
      SetSumZero(accounts, LegSums(legs));
    } else {
      var init := legs[..|legs| - 1];
      var last := legs[|legs| - 1];
      var point := (a: Account) => if last.account == a then last.amount else 0;
      assert last in legs;
      AssetSumByAccount(init, asset, accounts);
      SetSumPoint(accounts, point, last.account);
      SetSumAdd(accounts, LegSums(init), point, LegSums(legs));
    }
  }

  // ----- What an operation must satisfy on its own -----

  /** No asset is created or destroyed by the legs. */
  predicate Balanced(legs: seq<Leg>) {
    forall leg :: leg in legs ==> AssetSum(legs, leg.account.asset) == 0
  }

  lemma BalancedInEveryAsset(legs: seq<Leg>, asset: Asset)
    requires Balanced(legs)
    ensures AssetSum(legs, asset) == 0
  {
    if forall leg :: leg in legs ==> leg.account.asset != asset {
      NoLegInAsset(legs, asset);
    }
  }

  /** A strict active account takes no negative leg, a strict passive one no positive leg. */
  predicate SignOk(leg: Leg) {
    leg.account.strict ==>
      && (leg.account.kind == Active ==> leg.amount >= 0)
      && (leg.account.kind == Passive ==> leg.amount <= 0)
  }

  /** The leg takes from a strict active account, or gives to a strict passive one. */
  predicate BreaksStrictness(leg: Leg) {
    && leg.account.strict
    && ((leg.account.kind == Active && leg.amount < 0) || (leg.account.kind == Passive && leg.amount > 0))
  }

  /** On a strict account each leg for itself has to respect the bound of the account. */
  lemma SignOkIff(leg: Leg)
    ensures SignOk(leg) <==> !BreaksStrictness(leg)
    ensures SignOk(leg) <==> (leg.account.strict ==> InBounds(leg.account, leg.amount))
  {
  }

  predicate SignsOk(legs: seq<Leg>) {
    forall leg :: leg in legs ==> SignOk(leg)
  }

  /** The bound an account's balance has to respect. */
  predicate InBounds(a: Account, balance: int) {
    && (a.kind == Active ==> balance >= 0)
    && (a.kind == Passive ==> balance <= 0)
  }

  lemma {:induction false} StrictLegSum(legs: seq<Leg>, a: Account)
    requires SignsOk(legs) && a.strict
    ensures InBounds(a, LegSum(legs, a))
  {
    if legs != [] {
      assert legs[|legs| - 1] in legs;
      StrictLegSum(legs[..|legs| - 1], a);
    }
  }

  // ----- Balances over the table of operations -----

  /** Which operations count towards the balance of an account in a given asset. */
  type Rule = (Op, Asset) -> bool

  function LegWeight(rule: Rule, a: Account): Op -> int {
    (op: Op) => if rule(op, a.asset) then LegSum(op.legs, a) else 0
  }

  ghost function BalanceBy(book: Book, rule: Rule, a: Account): int {
    Total(book, LegWeight(rule, a))
  }

  /** The balances of all accounts under one rule. */
  ghost function Balances(book: Book, rule: Rule): Account -> int {
    (a: Account) => BalanceBy(book, rule, a)
  }

  function StatusRule(statuses: set<Status>): Rule {
    (op: Op, asset: Asset) => op.status in statuses
  }

  /** The statuses `calculate_balance` does not exclude. */
  function Counted(includeNew: bool): set<Status> {
    if includeNew then {New, Hold, Committed} else {Hold, Committed}
  }

  /** The balance of `calculate_balance`. */
  ghost function Balance(book: Book, a: Account, includeNew: bool): int {
    BalanceBy(book, StatusRule(Counted(includeNew)), a)
  }

  /** An operation can be held when it is balanced, its legs have the right sign on strict accounts,
      and every account it touches is within bounds. */
  ghost predicate Valid(book: Book, legs: seq<Leg>, includeNew: bool) {
    && Balanced(legs)
    && SignsOk(legs)
    && forall leg :: leg in legs ==> InBounds(leg.account, Balance(book, leg.account, includeNew))
  }

  // ----- Facts about whole tables -----

  /** What validation guarantees about the operations that survive it, whatever their status. */
  ghost predicate WellPosted(book: Book) {
    forall id :: id in book ==> Balanced(book[id].legs) && SignsOk(book[id].legs)
  }

  /** The accounts cover everything the table posts in the asset. */
  ghost predicate Covers(accounts: set<Account>, asset: Asset, book: Book) {
    && (forall a :: a in accounts ==> a.asset == asset)
    && (forall id, leg :: id in book && leg in book[id].legs && leg.account.asset == asset ==> leg.account in accounts)
  }

  /** Double entry: whatever rule decides which operations count in an asset, if those operations are
      balanced then the balances of the accounts of that asset sum to zero. */
  lemma BalancesSumToZero(book: Book, rule: Rule, asset: Asset, accounts: set<Account>)
    requires forall id :: id in book && rule(book[id], asset) ==> Balanced(book[id].legs)
    requires Covers(accounts, asset, book)
    ensures SetSum(accounts, Balances(book, rule)) == 0
  {
    var weight := (a: Account) => LegWeight(rule, a);
    forall id | id in book ensures SetSum(accounts, RowWeights(weight, book[id])) == 0 {
      var op := book[id];
      if rule(op, asset) {
        AssetSumByAccount(op.legs, asset, accounts);
        BalancedInEveryAsset(op.legs, asset);
        SetSumSame(accounts, LegSums(op.legs), RowWeights(weight, op));
      } else {
        SetSumZero(accounts, RowWeights(weight, op));
      }
    }
    SumsOfTotalsCancel(accounts, book, weight);
    SetSumSame(accounts, Totals(weight, book), Balances(book, rule));
  }

  /** A strict account is within bounds whichever statuses are counted, once the counted operations
      keep the sign rule. */
  lemma CountedStrictInBounds(book: Book, a: Account, statuses: set<Status>)
    requires a.strict
    requires forall id :: id in book && book[id].status in statuses ==> SignsOk(book[id].legs)
    ensures InBounds(a, BalanceBy(book, StatusRule(statuses), a))
  {
    var w := LegWeight(StatusRule(statuses), a);
    forall id | id in book ensures InBounds(a, w(book[id])) {
      if book[id].status in statuses {
        StrictLegSum(book[id].legs, a);
      }
    }
    if a.kind == Active {
      TotalNonNegative(book, w);
    } else if a.kind == Passive {
      var opposite := (op: Op) => -w(op);
      TotalNonNegative(book, opposite);
      TotalNegate(book, w, opposite);
    }
  }

  /** Writing one operation moves a balance by that operation's own contribution. */
  lemma BalanceAfterWrite(book: Book, id: OpId, op: Op, rule: Rule, a: Account)
    ensures BalanceBy(book[id := op], rule, a)
         == BalanceBy(book, rule, a) + LegWeight(rule, a)(op)
            - (if id in book then LegWeight(rule, a)(book[id]) else 0)
  {
    TotalWrite(book, id, op, LegWeight(rule, a));
  }
}
