/** Fees: the row in force, the raw fee, and its truncation to the precision of the asset.
    Amounts and fee values are millionths; a raw fee is a product of two and counted in 10^-12. */
module Fees {
  import opened Common
  import opened Accounting

  const MILLION := 1_000_000

  datatype OperationType = WithdrawalCrypto | WithdrawalBankAccount | DepositCrypto | DepositBankAccount | DepositCard
  datatype ValueType = Constant | Percentage | Unspecified
  datatype Fee = Fee(operationType: OperationType, asset: Option<Asset>, valueType: ValueType, value: int)
  datatype Amount = Amount(rounded: int, remainder: int)

  datatype Lookup<+T> = Found(value: T) | DoesNotExist | MultipleObjectsReturned
  datatype Charge = Charged(fee: Amount) | NoFee | AmbiguousFee | NoValueType

  function Matching(fees: seq<Fee>, operationType: OperationType, asset: Option<Asset>): seq<Fee> {
    if fees == [] then []
    else
      var last := fees[|fees| - 1];
      Matching(fees[..|fees| - 1], operationType, asset)
      + if last.operationType == operationType && last.asset == asset then [last] else []
  }

  /** A query that expects exactly one row. */
  function Get(fees: seq<Fee>, operationType: OperationType, asset: Option<Asset>): Lookup<Fee> {
    var rows := Matching(fees, operationType, asset);
    if rows == [] then DoesNotExist
    else if |rows| == 1 then Found(rows[0])
    else MultipleObjectsReturned
  }

  /** The fee of the asset, or the one for all assets when there is none. */
  function InForce(fees: seq<Fee>, operationType: OperationType, asset: Asset): Lookup<Fee> {
    var own := Get(fees, operationType, Some(asset));
    if own.DoesNotExist? then Get(fees, operationType, None) else own
  }

  function Raw(fee: Fee, amount: int): int {
    if fee.valueType == Constant then fee.value * MILLION else fee.value * amount
  }

  function Pow10(n: nat): (p: int)
    ensures p > 0
  {
    if n == 0 then 1 else 10 * Pow10(n - 1)
  }

  /** One unit of the last decimal place of an asset; finer places hold every raw fee exactly. */
  function Unit(decimals: nat): (u: int)
    ensures u > 0
  {
    if decimals <= 12 then Pow10(12 - decimals) else 1
  }

  /** Rounding towards zero to a multiple of the unit, and what is left. */
  function Quantize(amount: int, unit: int): Amount
    requires unit > 0
  {
    var rounded := if amount >= 0 then amount / unit * unit else -((-amount) / unit * unit);
    Amount(rounded, amount - rounded)
  }

  function CalculateFee(fees: seq<Fee>, amount: int, asset: Asset, operationType: OperationType): Charge {
    match InForce(fees, operationType, asset)
    case DoesNotExist => NoFee
    case MultipleObjectsReturned => AmbiguousFee
    case Found(fee) =>
      if fee.valueType == Unspecified then NoValueType
      else Charged(Quantize(Raw(fee, amount), Unit(asset.decimals)))
  }

  // ----- What truncation means -----

  /** A split of `x` into a multiple of the unit and a smaller remainder of the same sign. */
  predicate TruncatesTo(x: int, unit: int, a: Amount) {
    && unit > 0 && a.rounded % unit == 0 && a.rounded + a.remainder == x
    && -unit < a.remainder < unit
    && (x >= 0 ==> a.remainder >= 0 && a.rounded >= 0)
    && (x <= 0 ==> a.remainder <= 0 && a.rounded <= 0)
  }

  lemma DivideExactly(x: nat, unit: int)
    requires unit > 0
    ensures var r := x / unit * unit; 0 <= r <= x < r + unit && r % unit == 0 && (-r) % unit == 0
  {
    var q := x / unit;
    assert x == q * unit + x % unit;
    MultipleOf(q, unit);
    MultipleOf(-q, unit);
    assert -(q * unit) == (-q) * unit;
  }

  lemma MultipleOf(q: int, unit: int)
    requires unit > 0
    ensures (q * unit) % unit == 0 && (q * unit) / unit == q
  {
    QuotientUnique(q * unit, q, 0, unit);
  }

  lemma MultiplyMono(p: int, q: int, unit: int)
    requires p <= q && unit >= 0
    ensures p * unit <= q * unit
  {
  }

  lemma SameQuotient(q: int, r: int, q': int, r': int, unit: int)
    requires q * unit + r == q' * unit + r' && 0 <= r < unit && 0 <= r' < unit
    ensures q == q' && r == r'
  {
    assert (q + 1) * unit == q * unit + unit && (q' + 1) * unit == q' * unit + unit;
    if q < q' {
      MultiplyMono(q + 1, q', unit);
    } else if q' < q {
      MultiplyMono(q' + 1, q, unit);
    }
  }

  lemma QuotientUnique(x: int, q: int, r: int, unit: int)
    requires unit > 0 && x == q * unit + r && 0 <= r < unit
    ensures x / unit == q && x % unit == r
  {
    assert x == x / unit * unit + x % unit;
    SameQuotient(q, r, x / unit, x % unit, unit);
  }

  /** The quantized fee and its remainder are the only such split. */
  lemma {:induction false} QuantizeIsTruncation(x: int, unit: int, a: Amount)
    requires unit > 0
    ensures TruncatesTo(x, unit, a) <==> a == Quantize(x, unit)
  {
    DivideExactly(if x >= 0 then x else -x, unit);
    assert TruncatesTo(x, unit, Quantize(x, unit));
    if TruncatesTo(x, unit, a) {
      var q := a.rounded / unit;
      assert a.rounded == q * unit;
      if x >= 0 {
        QuotientUnique(x, q, a.remainder, unit);
      } else {
        assert -x == (-q) * unit + -a.remainder;
        QuotientUnique(-x, -q, -a.remainder, unit);
      }
    }
  }

  // ----- Which fee is in force, and what it comes to -----

  /** The positions of the rows for the operation and exactly this asset, or for none. */
  function Rows(fees: seq<Fee>, operationType: OperationType, asset: Option<Asset>): set<nat> {
    set i: nat | i < |fees| && fees[i].operationType == operationType && fees[i].asset == asset
  }

  lemma {:induction false} MatchingCount(fees: seq<Fee>, operationType: OperationType, asset: Option<Asset>)
    ensures |Matching(fees, operationType, asset)| == |Rows(fees, operationType, asset)|
  {
    if fees != [] {
      var init, n := fees[..|fees| - 1], |fees| - 1;
      MatchingCount(init, operationType, asset);
      RowsMore(fees, operationType, asset);
    }
  }

  lemma RowsMore(fees: seq<Fee>, operationType: OperationType, asset: Option<Asset>)
    requires fees != []
    ensures var init, n := fees[..|fees| - 1], |fees| - 1;
      && n !in Rows(init, operationType, asset)
      && Rows(fees, operationType, asset) == Rows(init, operationType, asset)
           + if fees[n].operationType == operationType && fees[n].asset == asset then {n} else {}
  {
  }

  lemma {:induction false} OnlyMatching(fees: seq<Fee>, operationType: OperationType, asset: Option<Asset>, i: nat)
    requires Rows(fees, operationType, asset) == {i}
    ensures i < |fees| && Matching(fees, operationType, asset) == [fees[i]]
  {
    assert i in Rows(fees, operationType, asset);
    var init, n := fees[..|fees| - 1], |fees| - 1;
    hide Rows;
    RowsMore(fees, operationType, asset);
    if i == n {
      assert n in Rows(fees, operationType, asset) && n !in Rows(init, operationType, asset);
      assert Rows(init, operationType, asset) == {};
      MatchingCount(init, operationType, asset);
    } else {
      assert n !in Rows(fees, operationType, asset);
      OnlyMatching(init, operationType, asset, i);
    }
  }

  /** A lookup finds a row exactly when it is the only one, and tells none from several. */
  lemma GetIff(fees: seq<Fee>, operationType: OperationType, asset: Option<Asset>)
    ensures Get(fees, operationType, asset).DoesNotExist? <==> Rows(fees, operationType, asset) == {}
    ensures Get(fees, operationType, asset).MultipleObjectsReturned? <==> |Rows(fees, operationType, asset)| > 1
    ensures forall i :: Rows(fees, operationType, asset) == {i} ==>
      i < |fees| && Get(fees, operationType, asset) == Found(fees[i])
  {
    hide Rows;
    MatchingCount(fees, operationType, asset);
    forall i | Rows(fees, operationType, asset) == {i}
      ensures i < |fees| && Get(fees, operationType, asset) == Found(fees[i])
    {
      OnlyMatching(fees, operationType, asset, i);
    }
  }

  /** A row for the asset comes before the row for all assets, also when there are several of it. */
  lemma InForceIs(fees: seq<Fee>, operationType: OperationType, asset: Asset)
    ensures Rows(fees, operationType, Some(asset)) != {} ==>
      InForce(fees, operationType, asset) == Get(fees, operationType, Some(asset))
    ensures Rows(fees, operationType, Some(asset)) == {} ==>
      InForce(fees, operationType, asset) == Get(fees, operationType, None)
  {
    GetIff(fees, operationType, Some(asset));
  }

  /** The unit of an asset is one at most 12 decimal places down: 10^12 of the smallest places at none, a
      tenth with each further one. */
  lemma Units(decimals: nat)
    ensures Unit(0) == 1_000_000_000_000
    ensures decimals < 12 ==> Unit(decimals) == 10 * Unit(decimals + 1)
    ensures decimals >= 12 ==> Unit(decimals) == 1
  {
    assert Pow10(4) == 10 * Pow10(3) == 10_000;
    assert Pow10(8) == 10_000 * Pow10(4);
    assert Pow10(12) == 10_000 * Pow10(8);
  }

  /** With one row in force the customer pays the constant value, or the rate times the amount, truncated
      to the unit of the asset, and the rest is the remainder. */
  lemma ChargeIs(fees: seq<Fee>, i: nat, amount: int, asset: Asset, operationType: OperationType)
    requires Rows(fees, operationType, Some(asset)) == {i}
          || (Rows(fees, operationType, Some(asset)) == {} && Rows(fees, operationType, None) == {i})
    ensures i < |fees|
    ensures fees[i].valueType == Unspecified ==> CalculateFee(fees, amount, asset, operationType) == NoValueType
    ensures fees[i].valueType != Unspecified ==>
      var charge := CalculateFee(fees, amount, asset, operationType);
      && charge.Charged?
      && TruncatesTo(fees[i].value * (if fees[i].valueType == Percentage then amount else 1_000_000),
                     Unit(asset.decimals), charge.fee)
  {
    hide Get, Unit, TruncatesTo, Quantize;
    assert i in Rows(fees, operationType, Some(asset)) || i in Rows(fees, operationType, None);
    GetIff(fees, operationType, Some(asset));
    GetIff(fees, operationType, None);
    var unit := Unit(asset.decimals);
    QuantizeIsTruncation(Raw(fees[i], amount), unit, Quantize(Raw(fees[i], amount), unit));
  }

  /** Without a row there is no fee to charge, and with several the charge is refused. */
  lemma NoChargeIff(fees: seq<Fee>, amount: int, asset: Asset, operationType: OperationType)
    ensures CalculateFee(fees, amount, asset, operationType) == NoFee
       <==> Rows(fees, operationType, Some(asset)) == {} == Rows(fees, operationType, None)
    ensures CalculateFee(fees, amount, asset, operationType) == AmbiguousFee <==>
      || |Rows(fees, operationType, Some(asset))| > 1
      || (Rows(fees, operationType, Some(asset)) == {} && |Rows(fees, operationType, None)| > 1)
  {
    hide Get, Unit, Quantize;
    GetIff(fees, operationType, Some(asset));
    GetIff(fees, operationType, None);
  }

  // ----- What customers are charged -----

  /** A percentage between none and all of a non-negative amount is never charged above the amount. */
  lemma {:induction false} PercentageWithinAmount(fees: seq<Fee>, amount: int, asset: Asset,
                                                  operationType: OperationType)
    requires amount >= 0
    requires InForce(fees, operationType, asset).Found?
    requires InForce(fees, operationType, asset).value.valueType == Percentage
    requires 0 <= InForce(fees, operationType, asset).value.value <= MILLION
    ensures CalculateFee(fees, amount, asset, operationType).Charged?
    ensures 0 <= CalculateFee(fees, amount, asset, operationType).fee.rounded <= amount * MILLION
  {
    var rate := InForce(fees, operationType, asset).value.value;
    assert 0 <= rate * amount <= MILLION * amount;
    DivideExactly(rate * amount, Unit(asset.decimals));
  }

  function Sum(xs: seq<int>): int {
    if xs == [] then 0 else Sum(xs[..|xs| - 1]) + xs[|xs| - 1]
  }

  /** What is charged for the parts one by one. */
  function ChargedSeparately(parts: seq<int>, fee: Fee, unit: int): int
    requires unit > 0
  {
    if parts == [] then 0
    else ChargedSeparately(parts[..|parts| - 1], fee, unit) + Quantize(Raw(fee, parts[|parts| - 1]), unit).rounded
  }

  lemma FloorOfSum(a: nat, b: nat, unit: int)
    requires unit > 0
    ensures var floor := (x: int) => Quantize(x, unit).rounded;
      floor(a) + floor(b) <= floor(a + b) <= floor(a) + floor(b) + unit
  {
    var p, q := a / unit, b / unit;
    var r := a % unit + b % unit;
    assert a + b == (p + q) * unit + r by {
      assert (p + q) * unit == p * unit + q * unit;
    }
    if r < unit {
      QuotientUnique(a + b, p + q, r, unit);
    } else {
      assert (p + q + 1) * unit == (p + q) * unit + unit;
      QuotientUnique(a + b, p + q + 1, r - unit, unit);
    }
    assert (p + q) * unit == p * unit + q * unit;
  }

  lemma {:induction false} SumNonNegative(xs: seq<int>)
    requires forall i :: 0 <= i < |xs| ==> xs[i] >= 0
    ensures Sum(xs) >= 0
  {
    if xs != [] {
      SumNonNegative(xs[..|xs| - 1]);
    }
  }

  lemma RawAdds(fee: Fee, a: int, b: int)
    requires fee.valueType == Percentage && fee.value >= 0 && a >= 0 && b >= 0
    ensures Raw(fee, a + b) == Raw(fee, a) + Raw(fee, b)
    ensures Raw(fee, a) >= 0 && Raw(fee, b) >= 0
  {
    assert fee.value * (a + b) == fee.value * a + fee.value * b;
    MultiplyMono(0, a, fee.value);
    MultiplyMono(0, b, fee.value);
  }

  /** Charging non-negative parts one by one never costs more than charging their sum, and less by at
      most one unit for each part after the first. */
  lemma {:induction false} SplittingIsNeverDearer(parts: seq<int>, fee: Fee, unit: int)
    requires unit > 0 && parts != [] && fee.valueType == Percentage && fee.value >= 0
    requires forall i :: 0 <= i < |parts| ==> parts[i] >= 0
    ensures ChargedSeparately(parts, fee, unit)
         <= Quantize(Raw(fee, Sum(parts)), unit).rounded
         <= ChargedSeparately(parts, fee, unit) + (|parts| - 1) * unit
  {
    hide Quantize, Raw;
    var init, last := parts[..|parts| - 1], parts[|parts| - 1];
    if init == [] {
      assert Sum(parts) == last;
    } else {
      SplittingIsNeverDearer(init, fee, unit);
      SumNonNegative(init);
      RawAdds(fee, Sum(init), last);
      FloorOfSum(Raw(fee, Sum(init)), Raw(fee, last), unit);
      assert (|parts| - 1) * unit == (|init| - 1) * unit + unit;
    }
  }

  /** A constant fee is charged once for each part. */
  lemma {:induction false} ConstantFeeRepeats(parts: seq<int>, fee: Fee, unit: int)
    requires unit > 0 && fee.valueType == Constant
    ensures ChargedSeparately(parts, fee, unit) == |parts| * Quantize(Raw(fee, Sum(parts)), unit).rounded
  {
    if parts != [] {
      var k := Quantize(Raw(fee, Sum(parts)), unit).rounded;
      ConstantFeeRepeats(parts[..|parts| - 1], fee, unit);
      assert |parts| * k == (|parts| - 1) * k + k;
    }
  }
}
