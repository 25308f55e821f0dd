/** The legs each kind of operation posts, and what they move. */
module Postings {
  import opened Common
  import opened Accounting

  /** Arguments of `create_deposit` and `create_withdrawal`. */
  datatype Payment = Payment(
    payment: Account, user: Account, amount: int,
    feeAccount: Option<Account>, feeAmount: Option<int>,
    roundingAccount: Option<Account>, roundingAmount: Option<int>,
    references: Option<map<string, string>>)
  {
    function Fee(): int { Given(feeAccount, feeAmount) }
    function Rounding(): int { Given(roundingAccount, roundingAmount) }
  }

  /** Arguments of `create_exchange`. */
  datatype Exchange = Exchange(
    base: Account, baseExchange: Account, baseAmount: int,
    quote: Account, quoteExchange: Account, quoteAmount: int,
    feeAccount: Account, feeAmount: int,
    baseRoundingAccount: Option<Account>, baseRoundingAmount: Option<int>,
    quoteRoundingAccount: Option<Account>, quoteRoundingAmount: Option<int>,
    references: Option<map<string, string>>)
  {
    function BaseRounding(): int { Given(baseRoundingAccount, baseRoundingAmount) }
    function QuoteRounding(): int { Given(quoteRoundingAccount, quoteRoundingAmount) }
  }

  /** The amount actually posted: both the account and a non-zero amount have to be given. */
  function Given(account: Option<Account>, amount: Option<int>): int {
    if account.Some? && amount.Some? then amount.value else 0
  }

  function OptionalTransfer(from: Account, to: Option<Account>, amount: int): seq<Leg> {
    if to.Some? && amount != 0 then Transfer(from, to.value, amount) else []
  }

  function OrEmpty(references: Option<map<string, string>>): map<string, string> {
    if references.Some? then references.value else map[]
  }

  const BANK_ACCOUNT_KEY := "user_bank_account_uuid"
  const DEPOSIT_KEY := "deposit"
  const REJECT_REASON_KEY := "reject_reason"

  predicate DepositAllowed(d: Payment) {
    && d.amount > 0
    && (d.payment.asset.kind == Fiat ==> d.references.Some? && BANK_ACCOUNT_KEY in d.references.value)
  }

  predicate WithdrawalAllowed(d: Payment) {
    d.amount > 0
  }

  predicate ExchangeAllowed(e: Exchange) {
    e.baseAmount * e.quoteAmount < 0 && e.feeAmount >= 0
  }

  function ExtraLegs(d: Payment): seq<Leg> {
    OptionalTransfer(d.user, d.feeAccount, d.Fee()) + OptionalTransfer(d.payment, d.roundingAccount, -d.Rounding())
  }

  function DepositLegs(d: Payment): seq<Leg> {
    Transfer(d.payment, d.user, d.amount) + ExtraLegs(d)
  }

  function WithdrawalLegs(d: Payment): seq<Leg> {
    Transfer(d.user, d.payment, d.amount) + ExtraLegs(d)
  }

  /** The six legs every exchange posts: base against its exchange account, quote likewise, and the fee. */
  function ExchangeMainLegs(e: Exchange): seq<Leg> {
    Transfer(e.base, e.baseExchange, -e.baseAmount)
    + Transfer(e.quote, e.quoteExchange, -e.quoteAmount)
    + Transfer(e.quote, e.feeAccount, e.feeAmount)
  }

  function ExchangeRoundingLegs(e: Exchange): seq<Leg> {
    OptionalTransfer(e.baseExchange, e.baseRoundingAccount, -e.BaseRounding())
    + OptionalTransfer(e.quoteExchange, e.quoteRoundingAccount, -e.QuoteRounding())
  }

  function ExchangeLegs(e: Exchange): seq<Leg> {
    ExchangeMainLegs(e) + ExchangeRoundingLegs(e)
  }

  function ExchangeKind(e: Exchange): Kind {
    if e.baseAmount > 0 then Buy else Sell
  }

  /** `amount` if the account is `a`, nothing otherwise. */
  function On(account: Account, a: Account, amount: int): int {
    if account == a then amount else 0
  }

  function OnOption(account: Option<Account>, a: Account, amount: int): int {
    if account.Some? then On(account.value, a, amount) else 0
  }

  function InAsset(account: Account, asset: Asset, amount: int): int {
    if account.asset == asset then amount else 0
  }

  lemma OptionalTransferSums(from: Account, to: Option<Account>, amount: int, a: Account, asset: Asset)
    requires to.None? ==> amount == 0
    ensures LegSum(OptionalTransfer(from, to, amount), a) == OnOption(to, a, amount) - On(from, a, amount)
    ensures AssetSum(OptionalTransfer(from, to, amount), asset)
         == (if to.Some? then InAsset(to.value, asset, amount) else 0) - InAsset(from, asset, amount)
  {
    if to.Some? {
      TransferSums(from, to.value, amount, a, asset);
    }
  }

  lemma ExtraMoves(d: Payment, a: Account, asset: Asset)
    ensures LegSum(ExtraLegs(d), a)
         == On(d.payment, a, d.Rounding()) - On(d.user, a, d.Fee())
            + OnOption(d.feeAccount, a, d.Fee()) - OnOption(d.roundingAccount, a, d.Rounding())
    ensures (d.feeAccount.Some? ==> d.feeAccount.value.asset == d.user.asset)
         && (d.roundingAccount.Some? ==> d.roundingAccount.value.asset == d.payment.asset)
         ==> AssetSum(ExtraLegs(d), asset) == 0
  {
    var fee := OptionalTransfer(d.user, d.feeAccount, d.Fee());
    var rounding := OptionalTransfer(d.payment, d.roundingAccount, -d.Rounding());
    OptionalTransferSums(d.user, d.feeAccount, d.Fee(), a, asset);
    OptionalTransferSums(d.payment, d.roundingAccount, -d.Rounding(), a, asset);
    LegSumConcat(fee, rounding, a);
    AssetSumConcat(fee, rounding, asset);
  }

  /** A deposit credits the user with the amount less the fee, debits the payment method with the
      amount less the rounding remains, and gives the fee and the remains to their accounts. */
  lemma DepositMoves(d: Payment, a: Account)
    ensures LegSum(DepositLegs(d), a)
         == On(d.user, a, d.amount - d.Fee()) - On(d.payment, a, d.amount - d.Rounding())
            + OnOption(d.feeAccount, a, d.Fee()) - OnOption(d.roundingAccount, a, d.Rounding())
  {
    TransferSums(d.payment, d.user, d.amount, a, a.asset);
    ExtraMoves(d, a, a.asset);
    LegSumConcat(Transfer(d.payment, d.user, d.amount), ExtraLegs(d), a);
  }

  /** A withdrawal debits the user with the amount plus the fee. */
  lemma WithdrawalMoves(d: Payment, a: Account)
    ensures LegSum(WithdrawalLegs(d), a)
         == On(d.payment, a, d.amount + d.Rounding()) - On(d.user, a, d.amount + d.Fee())
            + OnOption(d.feeAccount, a, d.Fee()) - OnOption(d.roundingAccount, a, d.Rounding())
  {
    TransferSums(d.user, d.payment, d.amount, a, a.asset);
    ExtraMoves(d, a, a.asset);
    LegSumConcat(Transfer(d.user, d.payment, d.amount), ExtraLegs(d), a);
  }

  function InAssetOption(account: Option<Account>, asset: Asset, amount: int): int {
    if account.Some? then InAsset(account.value, asset, amount) else 0
  }

  /** What is left in an asset when `amount` moves from the payment method to the user. */
  function NetIn(d: Payment, amount: int, asset: Asset): int {
    InAsset(d.user, asset, amount - d.Fee()) - InAsset(d.payment, asset, amount - d.Rounding())
    + InAssetOption(d.feeAccount, asset, d.Fee()) - InAssetOption(d.roundingAccount, asset, d.Rounding())
  }

  lemma PaymentAssetSums(d: Payment, asset: Asset)
    ensures AssetSum(DepositLegs(d), asset) == NetIn(d, d.amount, asset)
    ensures AssetSum(WithdrawalLegs(d), asset) == NetIn(d, -d.amount, asset)
  {
    hide LegSum, AssetSum, OptionalTransfer;
    var fee := OptionalTransfer(d.user, d.feeAccount, d.Fee());
    var rounding := OptionalTransfer(d.payment, d.roundingAccount, -d.Rounding());
    OptionalTransferSums(d.user, d.feeAccount, d.Fee(), d.user, asset);
    OptionalTransferSums(d.payment, d.roundingAccount, -d.Rounding(), d.user, asset);
    AssetSumConcat(fee, rounding, asset);
    TransferSums(d.payment, d.user, d.amount, d.user, asset);
    TransferSums(d.user, d.payment, d.amount, d.user, asset);
    AssetSumConcat(Transfer(d.payment, d.user, d.amount), ExtraLegs(d), asset);
    AssetSumConcat(Transfer(d.user, d.payment, d.amount), ExtraLegs(d), asset);
  }

  /** What of the fee and of the remains changes the asset on its way. */
  function CrossFee(d: Payment): int {
    if d.feeAccount.Some? && d.feeAccount.value.asset != d.user.asset then d.Fee() else 0
  }

  function CrossRounding(d: Payment): int {
    if d.roundingAccount.Some? && d.roundingAccount.value.asset != d.payment.asset then d.Rounding() else 0
  }

  /** An amount moved from the payment method to the user, the fee and the remains cancel in every asset:
      usually because all stay within one asset, otherwise because what leaves an asset on one way comes
      back on another. */
  predicate AssetsCancel(d: Payment, amount: int) {
    var fee, rounding := CrossFee(d), CrossRounding(d);
    if d.payment.asset == d.user.asset then
      fee == rounding && (fee == 0 || d.feeAccount.value.asset == d.roundingAccount.value.asset)
    else
      || (fee + rounding == amount
          && (fee == 0 || d.feeAccount.value.asset == d.payment.asset)
          && (rounding == 0 || d.roundingAccount.value.asset == d.user.asset))
      || (fee == amount && rounding == amount && d.feeAccount.value.asset == d.roundingAccount.value.asset)
  }

  lemma NetsCancelIff(d: Payment, amount: int)
    requires amount != 0
    ensures (forall asset :: NetIn(d, amount, asset) == 0) <==> AssetsCancel(d, amount)
  {
    if forall asset :: NetIn(d, amount, asset) == 0 {
      assert NetIn(d, amount, d.user.asset) == 0 == NetIn(d, amount, d.payment.asset);
      assert d.feeAccount.Some? ==> NetIn(d, amount, d.feeAccount.value.asset) == 0;
      assert d.roundingAccount.Some? ==> NetIn(d, amount, d.roundingAccount.value.asset) == 0;
    }
  }

  /** A deposit or a withdrawal balances exactly under that condition. */
  lemma PaymentsBalanceIff(d: Payment)
    requires d.amount > 0
    ensures Balanced(DepositLegs(d)) <==> AssetsCancel(d, d.amount)
    ensures Balanced(WithdrawalLegs(d)) <==> AssetsCancel(d, -d.amount)
  {
    forall asset
      ensures AssetSum(DepositLegs(d), asset) == NetIn(d, d.amount, asset)
      ensures AssetSum(WithdrawalLegs(d), asset) == NetIn(d, -d.amount, asset)
    {
      PaymentAssetSums(d, asset);
    }
    BalancedIffNetsCancel(DepositLegs(d), d, d.amount);
    BalancedIffNetsCancel(WithdrawalLegs(d), d, -d.amount);
  }

  lemma BalancedIffNetsCancel(legs: seq<Leg>, d: Payment, amount: int)
    requires amount != 0 && forall asset :: AssetSum(legs, asset) == NetIn(d, amount, asset)
    ensures Balanced(legs) <==> AssetsCancel(d, amount)
  {
    hide AssetSum, NetIn, AssetsCancel;
    NetsCancelIff(d, amount);
    if Balanced(legs) {
      forall asset ensures NetIn(d, amount, asset) == 0 {
        BalancedInEveryAsset(legs, asset);
      }
    }
  }

  /** In particular when fee and remains stay within their assets: then it balances exactly when both of
      its accounts hold the same asset. */
  lemma SameAssetPaymentsBalanceIff(d: Payment)
    requires d.amount > 0 && CrossFee(d) == 0 == CrossRounding(d)
    ensures Balanced(DepositLegs(d)) <==> d.payment.asset == d.user.asset
    ensures Balanced(WithdrawalLegs(d)) <==> d.payment.asset == d.user.asset
  {
    PaymentsBalanceIff(d);
  }

  /** An account of its own, without bounds, in the asset of another one. */
  function Reserve(a: Account): Account { Account(a.uuid + "'", a.asset, Normal, false) }

  /** The deposit that moves `amount` onto the account, or off it, from or to a bank. */
  function Moving(a: Account, bank: Account, amount: int): Payment {
    var references := Some(map[BANK_ACCOUNT_KEY := ""]);
    if amount > 0 then Payment(bank, a, amount, None, None, None, None, references)
    else Payment(a, bank, -amount, None, None, None, None, references)
  }

  lemma MovingFacts(a: Account, bank: Account, amount: int, b: Account)
    requires amount != 0 && a.asset == bank.asset && !a.strict && bank.kind == Normal && !bank.strict
    ensures var legs := DepositLegs(Moving(a, bank, amount));
      && DepositAllowed(Moving(a, bank, amount)) && Balanced(legs) && SignsOk(legs)
      && |legs| == 2 && (forall leg :: leg in legs ==> leg.account == a || leg.account == bank)
      && LegSum(legs, b) == On(a, b, amount) - On(bank, b, amount)
  {
    hide LegSum, AssetSum;
    DepositMoves(Moving(a, bank, amount), b);
    SameAssetPaymentsBalanceIff(Moving(a, bank, amount));
  }

  /** Every account of the exchange holds the asset of its side; the fee is paid in the quote asset. */
  predicate ExchangeAssetsMatch(e: Exchange) {
    && e.baseExchange.asset == e.base.asset && e.quoteExchange.asset == e.quote.asset
    && e.feeAccount.asset == e.quote.asset
    && (e.baseRoundingAccount.Some? ==> e.baseRoundingAccount.value.asset == e.base.asset)
    && (e.quoteRoundingAccount.Some? ==> e.quoteRoundingAccount.value.asset == e.quote.asset)
  }

  /** What is left in an asset by the whole exchange. */
  function ExchangeNetIn(e: Exchange, asset: Asset): int {
    InAsset(e.base, asset, e.baseAmount) + InAsset(e.quote, asset, e.quoteAmount - e.feeAmount)
    + InAsset(e.feeAccount, asset, e.feeAmount)
    - InAsset(e.baseExchange, asset, e.baseAmount - e.BaseRounding())
    - InAsset(e.quoteExchange, asset, e.quoteAmount - e.QuoteRounding())
    - InAssetOption(e.baseRoundingAccount, asset, e.BaseRounding())
    - InAssetOption(e.quoteRoundingAccount, asset, e.QuoteRounding())
  }

  lemma ExchangeMainAssets(e: Exchange, asset: Asset)
    ensures AssetSum(ExchangeMainLegs(e), asset)
         == InAsset(e.base, asset, e.baseAmount) + InAsset(e.quote, asset, e.quoteAmount - e.feeAmount)
            + InAsset(e.feeAccount, asset, e.feeAmount)
            - InAsset(e.baseExchange, asset, e.baseAmount) - InAsset(e.quoteExchange, asset, e.quoteAmount)
  {
    hide LegSum, AssetSum, Transfer;
    var base := Transfer(e.base, e.baseExchange, -e.baseAmount);
    var quote := Transfer(e.quote, e.quoteExchange, -e.quoteAmount);
    var fee := Transfer(e.quote, e.feeAccount, e.feeAmount);
    TransferSums(e.base, e.baseExchange, -e.baseAmount, e.base, asset);
    TransferSums(e.quote, e.quoteExchange, -e.quoteAmount, e.base, asset);
    TransferSums(e.quote, e.feeAccount, e.feeAmount, e.base, asset);
    AssetSumConcat(base, quote, asset);
    AssetSumConcat(base + quote, fee, asset);
  }

  lemma ExchangeRoundingAssets(e: Exchange, asset: Asset)
    ensures AssetSum(ExchangeRoundingLegs(e), asset)
         == InAsset(e.baseExchange, asset, e.BaseRounding()) + InAsset(e.quoteExchange, asset, e.QuoteRounding())
            - InAssetOption(e.baseRoundingAccount, asset, e.BaseRounding())
            - InAssetOption(e.quoteRoundingAccount, asset, e.QuoteRounding())
  {
    hide LegSum, AssetSum, OptionalTransfer;
    var base := OptionalTransfer(e.baseExchange, e.baseRoundingAccount, -e.BaseRounding());
    var quote := OptionalTransfer(e.quoteExchange, e.quoteRoundingAccount, -e.QuoteRounding());
    OptionalTransferSums(e.baseExchange, e.baseRoundingAccount, -e.BaseRounding(), e.base, asset);
    OptionalTransferSums(e.quoteExchange, e.quoteRoundingAccount, -e.QuoteRounding(), e.base, asset);
    AssetSumConcat(base, quote, asset);
  }

  lemma ExchangeAssetSums(e: Exchange, asset: Asset)
    ensures AssetSum(ExchangeLegs(e), asset) == ExchangeNetIn(e, asset)
  {
    hide AssetSum, ExchangeMainLegs, ExchangeRoundingLegs;
    ExchangeMainAssets(e, asset);
    ExchangeRoundingAssets(e, asset);
    AssetSumConcat(ExchangeMainLegs(e), ExchangeRoundingLegs(e), asset);
  }

  function AssetOf(account: Option<Account>): set<Asset> {
    if account.Some? then {account.value.asset} else {}
  }

  /** The at most seven assets of the accounts that the call is given. */
  function ExchangeAssets(e: Exchange): set<Asset> {
    {e.base.asset, e.quote.asset, e.feeAccount.asset, e.baseExchange.asset, e.quoteExchange.asset}
    + AssetOf(e.baseRoundingAccount) + AssetOf(e.quoteRoundingAccount)
  }

  /** An exchange between accounts of any assets balances exactly when its amounts cancel in each of them. */
  lemma ExchangesBalanceIff(e: Exchange)
    ensures Balanced(ExchangeLegs(e)) <==> forall asset :: asset in ExchangeAssets(e) ==> ExchangeNetIn(e, asset) == 0
  {
    hide AssetSum, ExchangeLegs;
    forall asset
      ensures AssetSum(ExchangeLegs(e), asset) == ExchangeNetIn(e, asset)
      ensures asset !in ExchangeAssets(e) ==> ExchangeNetIn(e, asset) == 0
      ensures Balanced(ExchangeLegs(e)) ==> AssetSum(ExchangeLegs(e), asset) == 0
    {
      ExchangeAssetSums(e, asset);
      if Balanced(ExchangeLegs(e)) {
        BalancedInEveryAsset(ExchangeLegs(e), asset);
      }
    }
  }

  /** The fee and the remains, if any, stay inside their assets. */
  predicate ExtrasInside(e: Exchange) {
    && (e.feeAmount == 0 || e.feeAccount.asset == e.quote.asset)
    && (e.BaseRounding() == 0 || e.baseRoundingAccount.value.asset == e.baseExchange.asset)
    && (e.QuoteRounding() == 0 || e.quoteRoundingAccount.value.asset == e.quoteExchange.asset)
  }

  /** What the two sides alone leave in an asset. */
  function SidesIn(e: Exchange, asset: Asset): int {
    InAsset(e.base, asset, e.baseAmount) + InAsset(e.quote, asset, e.quoteAmount)
    - InAsset(e.baseExchange, asset, e.baseAmount) - InAsset(e.quoteExchange, asset, e.quoteAmount)
  }

  lemma ExtrasCancel(e: Exchange, asset: Asset)
    requires ExtrasInside(e)
    ensures ExchangeNetIn(e, asset) == SidesIn(e, asset)
  {
  }

  lemma SidesCancelIff(e: Exchange)
    requires (e.baseAmount > 0 && e.quoteAmount < 0) || (e.baseAmount < 0 && e.quoteAmount > 0)
    ensures (forall asset :: asset in ExchangeAssets(e) ==> SidesIn(e, asset) == 0) <==>
      || (e.baseExchange.asset == e.base.asset && e.quoteExchange.asset == e.quote.asset)
      || (e.base.asset == e.quote.asset && e.baseExchange.asset == e.quoteExchange.asset
          && e.baseAmount == -e.quoteAmount)
  {
    if forall asset :: asset in ExchangeAssets(e) ==> SidesIn(e, asset) == 0 {
      assert SidesIn(e, e.base.asset) == 0 == SidesIn(e, e.quote.asset);
      assert SidesIn(e, e.baseExchange.asset) == 0 == SidesIn(e, e.quoteExchange.asset);
    }
  }

  /** With fee and remains inside their assets: exactly when both sides keep their asset, or all four accounts
      trade one amount crosswise between two assets. */
  lemma SameAssetExchangesBalanceIff(e: Exchange)
    requires ExchangeAllowed(e) && ExtrasInside(e)
    ensures Balanced(ExchangeLegs(e)) <==>
      || (e.baseExchange.asset == e.base.asset && e.quoteExchange.asset == e.quote.asset)
      || (e.base.asset == e.quote.asset && e.baseExchange.asset == e.quoteExchange.asset
          && e.baseAmount == -e.quoteAmount)
  {
    OppositeSigns(e.baseAmount, e.quoteAmount);
    hide Balanced, ExchangeLegs, AssetSum, ExchangeAllowed, ExchangeNetIn, SidesIn, ExchangeAssets, ExtrasInside;
    ExchangesBalanceIff(e);
    forall asset ensures ExchangeNetIn(e, asset) == SidesIn(e, asset) {
      ExtrasCancel(e, asset);
    }
    SidesCancelIff(e);
  }

  lemma OppositeSigns(x: int, y: int)
    requires x * y < 0
    ensures (x > 0 && y < 0) || (x < 0 && y > 0)
  {
  }

  /** Between matching accounts an exchange balances whatever its amounts, its fee and its remains. */
  lemma ExchangesBalance(e: Exchange)
    requires ExchangeAssetsMatch(e)
    ensures Balanced(ExchangeLegs(e))
  {
    ExchangesBalanceIff(e);
  }

  lemma ExchangeMainMoves(e: Exchange, a: Account)
    ensures LegSum(ExchangeMainLegs(e), a)
         == On(e.base, a, e.baseAmount) + On(e.quote, a, e.quoteAmount - e.feeAmount) + On(e.feeAccount, a, e.feeAmount)
            - On(e.baseExchange, a, e.baseAmount) - On(e.quoteExchange, a, e.quoteAmount)
  {
    var base := Transfer(e.base, e.baseExchange, -e.baseAmount);
    var quote := Transfer(e.quote, e.quoteExchange, -e.quoteAmount);
    var fee := Transfer(e.quote, e.feeAccount, e.feeAmount);
    TransferSums(e.base, e.baseExchange, -e.baseAmount, a, a.asset);
    TransferSums(e.quote, e.quoteExchange, -e.quoteAmount, a, a.asset);
    TransferSums(e.quote, e.feeAccount, e.feeAmount, a, a.asset);
    LegSumConcat(base, quote, a);
    LegSumConcat(base + quote, fee, a);
  }

  lemma ExchangeRoundingMoves(e: Exchange, a: Account)
    ensures LegSum(ExchangeRoundingLegs(e), a)
         == On(e.baseExchange, a, e.BaseRounding()) + On(e.quoteExchange, a, e.QuoteRounding())
            - OnOption(e.baseRoundingAccount, a, e.BaseRounding())
            - OnOption(e.quoteRoundingAccount, a, e.QuoteRounding())
  {
    hide LegSum, AssetSum, OptionalTransfer;
    var base := OptionalTransfer(e.baseExchange, e.baseRoundingAccount, -e.BaseRounding());
    var quote := OptionalTransfer(e.quoteExchange, e.quoteRoundingAccount, -e.QuoteRounding());
    OptionalTransferSums(e.baseExchange, e.baseRoundingAccount, -e.BaseRounding(), a, a.asset);
    OptionalTransferSums(e.quoteExchange, e.quoteRoundingAccount, -e.QuoteRounding(), a, a.asset);
    LegSumConcat(base, quote, a);
  }

  /** An exchange credits the base and quote accounts with their signed amounts, the quote account
      paying the fee; the two exchange accounts take the other side less the rounding remains. */
  lemma ExchangeMoves(e: Exchange, a: Account)
    ensures LegSum(ExchangeLegs(e), a)
         == On(e.base, a, e.baseAmount) + On(e.quote, a, e.quoteAmount - e.feeAmount) + On(e.feeAccount, a, e.feeAmount)
            - On(e.baseExchange, a, e.baseAmount - e.BaseRounding())
            - On(e.quoteExchange, a, e.quoteAmount - e.QuoteRounding())
            - OnOption(e.baseRoundingAccount, a, e.BaseRounding())
            - OnOption(e.quoteRoundingAccount, a, e.QuoteRounding())
  {
    ExchangeMainMoves(e, a);
    ExchangeRoundingMoves(e, a);
    LegSumConcat(ExchangeMainLegs(e), ExchangeRoundingLegs(e), a);
  }
}
