/** Fees: the EIP-1559 base fee market, exact fixed-point settlement, and the fee split. */
module Gas {
  import opened Digests
  import opened Records
  import opened Arith

  const RATE_SCALE: nat := 1_000_000
  const PRICE_SCALE: nat := 1_000_000_000_000
  const INTRINSIC_GAS: nat := 21_000
  const KEYLESS_GAS: nat := 100_000
  const MAX_GAS_LIMIT: nat := 30_000_000
  const ELASTICITY: nat := 2
  const BASE_FEE_CHANGE_DENOMINATOR: nat := 8
  const DEFAULT_BASE_FEE_FLOOR: nat := 25_000_000_000
  const DEFAULT_GAS_TARGET: nat := 5_000_000
  const SHARE_SCALE: nat := 1_000_000

  datatype GasError =
    | ZeroRate
    | GasOverflow
    | FeeBelowBaseFee(offered: nat, baseFee: nat)
    | GasLimitTooLow(limit: nat, required: nat)
    | GasLimitTooHigh(limit: nat)
    | FeeRoundsToZero
    | TimestampRegressed
    | InvalidFeeSplit

  function CheckedMul(a: nat, b: nat): Result<nat, GasError> {
    if a * b > U128_MAX then Err(GasOverflow) else Ok(a * b)
  }

  // ----- the fee market

  function GenesisMarket(floor: nat, target: nat): FeeMarket {
    FeeMarket(floor, floor, target, 0, 0)
  }

  /** The most gas one window may use, saturating at `u64::MAX`. */
  function WindowLimit(m: FeeMarket): nat {
    Min(m.target * ELASTICITY, U64_MAX)
  }

  /** One EIP-1559 step. */
  function NextBaseFee(base: nat, gas: nat, target: nat, floor: nat): Result<nat, GasError> {
    if target == 0 || gas > target then
      var scaled :- CheckedMul(base, if target == 0 then gas else gas - target);
      var delta := scaled / Max(target, 1) / BASE_FEE_CHANGE_DENOMINATOR;
      var next := base + Max(delta, 1);
      if next > U128_MAX then Err(GasOverflow) else Ok(Max(next, floor))
    else
      var scaled :- CheckedMul(base, target - gas);
      var delta := scaled / target / BASE_FEE_CHANGE_DENOMINATOR;
      Ok(Max(base - delta, floor))
  }

  /** The market as a batch stamped `timestamp` sees it: rolled once if its window has passed. */
  function At(m: FeeMarket, timestamp: nat): Result<FeeMarket, GasError> {
    if timestamp < m.windowTs then Err(TimestampRegressed)
    else if timestamp == m.windowTs then Ok(m)
    else
      var next :- NextBaseFee(m.baseFee, m.windowGas, m.target, m.floor);
      Ok(m.(baseFee := next, windowTs := timestamp, windowGas := 0))
  }

  /** A share of at most the whole moves the fee by at most one eighth. */
  lemma DeltaBound(base: nat, part: nat, target: nat)
    requires target > 0 && part <= target
    ensures base * part / target / 8 <= base / 8
  {
    MulLe(base, part, target);
    DivLe(base * part, base * target, target);
    DivSelf(base, target);
  }

  lemma StepUp(base: nat, gas: nat, target: nat, floor: nat)
    requires 0 < target < gas && NextBaseFee(base, gas, target, floor).Ok?
    ensures var next := NextBaseFee(base, gas, target, floor).value;
            && base < next && (gas <= ELASTICITY * target ==> next <= Max(floor, base + Max(1, base / 8)))
  {
    if gas - target <= target {
      DeltaBound(base, gas - target, target);
    }
  }

  lemma StepDown(base: nat, gas: nat, target: nat, floor: nat)
    requires gas <= target && 0 < target && NextBaseFee(base, gas, target, floor).Ok?
    ensures base - base / 8 <= NextBaseFee(base, gas, target, floor).value <= Max(floor, base)
  {
    var scaled := base * (target - gas);
    assert NextBaseFee(base, gas, target, floor) == Ok(Max(base - scaled / target / 8, floor));
    assert scaled / target / 8 <= base / 8 by { DeltaBound(base, target - gas, target); }
  }

  lemma StepEnds(base: nat, target: nat, floor: nat)
    requires 0 < target
    ensures NextBaseFee(base, target, target, floor) == Ok(Max(floor, base))
    ensures NextBaseFee(base, 0, target, floor).Ok? ==>
              NextBaseFee(base, 0, target, floor).value == Max(floor, base - base / 8)
  {
    DivSelf(base, target);
  }

  /** EIP-1559's step bound: within the elasticity limit one roll raises the fee by at most
      `max(1, base/8)`, and any roll lowers it by at most `base/8`; the fee strictly rises above
      target, never rises at or below it, and never ends below the floor. The bounds are met at
      an empty window and at the target. */
  lemma StepBound(base: nat, gas: nat, target: nat, floor: nat)
    requires target > 0 && NextBaseFee(base, gas, target, floor).Ok?
    ensures var next := NextBaseFee(base, gas, target, floor).value;
            && floor <= next
            && (gas > target ==> base < next)
            && (target < gas <= ELASTICITY * target ==> next <= Max(floor, base + Max(1, base / 8)))
            && (gas <= target ==> base - base / 8 <= next <= Max(floor, base))
            && (gas == target ==> next == Max(floor, base))
            && (gas == 0 ==> next == Max(floor, base - base / 8))
  {
    StepEnds(base, target, floor);
    if gas > target {
      StepUp(base, gas, target, floor);
    } else {
      StepDown(base, gas, target, floor);
    }
  }

  /** More demand never means a lower next fee. */
  lemma NextBaseFeeMonotone(base: nat, g: nat, h: nat, target: nat, floor: nat)
    requires g <= h && target > 0
    requires NextBaseFee(base, g, target, floor).Ok? && NextBaseFee(base, h, target, floor).Ok?
    ensures NextBaseFee(base, g, target, floor).value <= NextBaseFee(base, h, target, floor).value
  {
    if h <= target {
      MulLe(base, target - h, target - g);
      DivLe(base * (target - h), base * (target - g), target);
    } else if g > target {
      MulLe(base, g - target, h - target);
      DivLe(base * (g - target), base * (h - target), target);
    }
  }

  // ----- settlement

  /** A native price in the fee asset, rounding down. */
  function NativeToAsset(native: nat, rate: nat): Result<nat, GasError> {
    if rate == 0 then Err(ZeroRate)
    else
      var scaled :- CheckedMul(native, rate);
      Ok(scaled / RATE_SCALE)
  }

  datatype FeeCharge = FeeCharge(gasUsed: nat, hold: nat, refund: nat, tip: nat, base: nat)

  function Total(gas: nat, price: nat): Result<nat, GasError> {
    var scaled :- CheckedMul(gas, price);
    Ok(scaled / PRICE_SCALE)
  }

  function EffectiveTip(maxFee: nat, maxPriorityFee: nat, basePerGas: nat): nat
    requires basePerGas <= maxFee
  {
    Min(maxPriorityFee, maxFee - basePerGas)
  }

  /** What a transaction pays. The body subtracts as the source does: it is the postconditions of
      `SettlementParts` that make the subtraction safe. */
  function Settle(gasLimit: nat, gasUsed: nat, maxFee: nat, maxPriorityFee: nat, baseFee: nat, rate: nat)
    : (r: Result<FeeCharge, GasError>)
    ensures r.Ok? ==> r.value.refund + r.value.tip + r.value.base == r.value.hold && r.value.hold > 0
    ensures r.Ok? ==> r.value.gasUsed == gasUsed <= gasLimit <= MAX_GAS_LIMIT
  {
    if gasLimit > MAX_GAS_LIMIT then Err(GasLimitTooHigh(gasLimit))
    else if gasUsed > gasLimit then Err(GasLimitTooLow(gasLimit, gasUsed))
    else
      var basePerGas :- NativeToAsset(baseFee, rate);
      if maxFee < basePerGas then Err(FeeBelowBaseFee(maxFee, basePerGas))
      else
        var tipPerGas := EffectiveTip(maxFee, maxPriorityFee, basePerGas);
        var price := basePerGas + tipPerGas;
        var hold :- Total(gasLimit, price);
        if hold == 0 then Err(FeeRoundsToZero)
        else
          var refund :- Total(gasLimit - gasUsed, price);
          var tip :- Total(gasUsed, tipPerGas);
          var base :- Total(gasUsed, basePerGas);
          SettlementParts(gasLimit, gasUsed, basePerGas, tipPerGas);
          var remainder := hold - refund - tip - base;
          Ok(FeeCharge(gasUsed, hold, refund, tip, base + remainder))
  }

  /** The three floors never exceed the floored whole, and miss it by at most two units. */
  lemma SettlementParts(gasLimit: nat, gasUsed: nat, basePerGas: nat, tipPerGas: nat)
    requires gasUsed <= gasLimit
    ensures var price := basePerGas + tipPerGas;
            0 <= gasLimit * price / PRICE_SCALE - (gasLimit - gasUsed) * price / PRICE_SCALE
                 - gasUsed * tipPerGas / PRICE_SCALE - gasUsed * basePerGas / PRICE_SCALE <= 2
  {
    var price := basePerGas + tipPerGas;
    var x, y, z := (gasLimit - gasUsed) * price, gasUsed * tipPerGas, gasUsed * basePerGas;
    assert gasUsed * price == y + z;
    assert gasLimit * price == x + gasUsed * price;
    FloorSum(x, y, z);
  }

  lemma FloorSum(x: nat, y: nat, z: nat)
    ensures 0 <= (x + y + z) / PRICE_SCALE - x / PRICE_SCALE - y / PRICE_SCALE - z / PRICE_SCALE <= 2
  {
  }

  /** Settlement is exact and fair: nothing is minted or lost, the vault gains at most two units
      of rounding over its share, and the sender's net cost is at most the gas used at a price
      no higher than the offered maximum, rounded up. */
  lemma SettleExact(gasLimit: nat, gasUsed: nat, maxFee: nat, maxPriorityFee: nat, baseFee: nat, rate: nat)
    requires Settle(gasLimit, gasUsed, maxFee, maxPriorityFee, baseFee, rate).Ok?
    ensures var c := Settle(gasLimit, gasUsed, maxFee, maxPriorityFee, baseFee, rate).value;
            var basePerGas := baseFee * rate / RATE_SCALE;
            && basePerGas <= maxFee
            && var tipPerGas := EffectiveTip(maxFee, maxPriorityFee, basePerGas);
               var price := basePerGas + tipPerGas;
               && price <= maxFee
               && c.refund + c.tip + c.base == c.hold
               && 0 <= c.base - gasUsed * basePerGas / PRICE_SCALE <= 2
               && c.tip == gasUsed * tipPerGas / PRICE_SCALE
               && c.refund == (gasLimit - gasUsed) * price / PRICE_SCALE
               && (c.hold - c.refund) * PRICE_SCALE < gasUsed * price + PRICE_SCALE
               && c.hold - c.refund <= (gasUsed * price + PRICE_SCALE - 1) / PRICE_SCALE
  {
    var basePerGas := baseFee * rate / RATE_SCALE;
    var tipPerGas := EffectiveTip(maxFee, maxPriorityFee, basePerGas);
    var price := basePerGas + tipPerGas;
    SettlementParts(gasLimit, gasUsed, basePerGas, tipPerGas);
    var x, y := (gasLimit - gasUsed) * price, gasUsed * price;
    assert gasLimit * price == x + y;
    NetCost(x, y);
  }

  lemma NetCost(x: nat, y: nat)
    ensures var net := (x + y) / PRICE_SCALE - x / PRICE_SCALE;
            net * PRICE_SCALE < y + PRICE_SCALE && net <= (y + PRICE_SCALE - 1) / PRICE_SCALE
  {
  }

  // ----- the fee split

  function ShareSum(bs: seq<(Bytes32, nat)>): nat {
    if bs == [] then 0 else ShareSum(bs[..|bs| - 1]) + bs[|bs| - 1].1
  }

  predicate DistinctShares(bs: seq<(Bytes32, nat)>) {
    && (forall i :: 0 <= i < |bs| ==> bs[i].1 > 0)
    && (forall i, j :: 0 <= i < j < |bs| ==> bs[i].0 != bs[j].0)
  }

  /** What a usable split is: few, distinct, paid beneficiaries whose shares and the burn make
      exactly the whole. */
  predicate SplitOk(f: FeeSplit) {
    && |f.beneficiaries| <= MAX_FEE_BENEFICIARIES
    && DistinctShares(f.beneficiaries)
    && f.burn + ShareSum(f.beneficiaries) == SHARE_SCALE
  }

  /** `FeeSplit::check`, scanning with a running total. */
  method CheckSplit(f: FeeSplit) returns (r: Result<(), GasError>)
    ensures r == if SplitOk(f) then Ok(()) else Err(InvalidFeeSplit)
  {
    var bs := f.beneficiaries;
    if |bs| > MAX_FEE_BENEFICIARIES {
      return Err(InvalidFeeSplit);
    }
    var total := f.burn;
    for i := 0 to |bs|
      invariant total == f.burn + ShareSum(bs[..i])
      invariant forall l :: 0 <= l < i ==> bs[l].1 > 0
      invariant forall l, j :: 0 <= l < j < i ==> bs[l].0 != bs[j].0
    {
      if bs[i].1 == 0 || exists l :: 0 <= l < i && bs[l].0 == bs[i].0 {
        return Err(InvalidFeeSplit);
      }
      assert bs[..i + 1][..i] == bs[..i];
      total := total + bs[i].1;
    }
    assert bs[..|bs|] == bs;
    r := if total == SHARE_SCALE then Ok(()) else Err(InvalidFeeSplit);
  }

  /** What each beneficiary receives from `amount`, rounded down. */
  function SharesOf(bs: seq<(Bytes32, nat)>, amount: nat): Result<seq<(Bytes32, nat)>, GasError>
    decreases |bs|
  {
    if bs == [] then Ok([])
    else
      var front :- SharesOf(bs[..|bs| - 1], amount);
      var last := bs[|bs| - 1];
      var scaled :- CheckedMul(amount, last.1);
      Ok(front + [(last.0, scaled / SHARE_SCALE)])
  }

  lemma {:induction false} SharesExact(bs: seq<(Bytes32, nat)>, amount: nat)
    requires SharesOf(bs, amount).Ok?
    ensures var shares := SharesOf(bs, amount).value;
            && |shares| == |bs|
            && forall i :: 0 <= i < |bs| ==> shares[i] == (bs[i].0, Share(amount, bs[i].1))
    decreases |bs|
  {
    if bs != [] {
      var n := |bs| - 1;
      SharesExact(bs[..n], amount);
    }
  }

  /** One more beneficiary keeps the floored shares within one unit each of the exact ones. */
  lemma ShareStep(amount: nat, sum: nat, share: nat, paid: nat, n: nat)
    requires Within(paid, amount, sum, n)
    ensures Within(paid + Share(amount, share), amount, sum + share, n + 1)
  {
    var exact := amount * share;
    assert amount * (sum + share) == amount * sum + exact;
  }

  function Share(amount: nat, share: nat): nat {
    amount * share / SHARE_SCALE
  }

  ghost predicate Within(paid: nat, amount: nat, sum: nat, n: nat) {
    paid * SHARE_SCALE <= amount * sum <= paid * SHARE_SCALE + n * (SHARE_SCALE - 1)
  }

  lemma {:induction false} FlooredSum(bs: seq<(Bytes32, nat)>, shares: seq<(Bytes32, nat)>, amount: nat)
    requires |shares| == |bs| && forall i :: 0 <= i < |bs| ==> shares[i].1 == Share(amount, bs[i].1)
    ensures Within(ShareSum(shares), amount, ShareSum(bs), |bs|)
    decreases |bs|
  {
    if bs != [] {
      var n := |bs| - 1;
      var front, paid := bs[..n], shares[..n];
      FlooredSum(front, paid, amount);
      ShareStep(amount, ShareSum(front), bs[n].1, ShareSum(paid), n);
      assert ShareSum(shares) == ShareSum(paid) + Share(amount, bs[n].1);
    }
  }

  lemma SharesBounded(bs: seq<(Bytes32, nat)>, amount: nat)
    requires SharesOf(bs, amount).Ok?
    ensures Within(ShareSum(SharesOf(bs, amount).value), amount, ShareSum(bs), |bs|)
  {
    SharesExact(bs, amount);
    FlooredSum(bs, SharesOf(bs, amount).value, amount);
  }

  /** A distribution never pays out more than it takes; what is burned is at least the burn share
      and exceeds it by less than one unit per beneficiary. */
  lemma DistributionBurn(f: FeeSplit, amount: nat)
    requires SplitOk(f) && SharesOf(f.beneficiaries, amount).Ok?
    ensures var burned := amount - ShareSum(SharesOf(f.beneficiaries, amount).value);
            && 0 <= burned
            && amount * f.burn <= burned * SHARE_SCALE <= amount * f.burn + |f.beneficiaries| * (SHARE_SCALE - 1)
  {
    SharesBounded(f.beneficiaries, amount);
    BurnArithmetic(amount, f.burn, ShareSum(f.beneficiaries),
                   ShareSum(SharesOf(f.beneficiaries, amount).value), |f.beneficiaries|);
  }

  lemma BurnArithmetic(amount: nat, burn: nat, shares: nat, paid: nat, n: nat)
    requires burn + shares == SHARE_SCALE
    requires paid * SHARE_SCALE <= amount * shares <= paid * SHARE_SCALE + n * (SHARE_SCALE - 1)
    ensures paid <= amount
    ensures amount * burn <= (amount - paid) * SHARE_SCALE <= amount * burn + n * (SHARE_SCALE - 1)
  {
    assert amount * (burn + shares) == amount * burn + amount * shares;
  }
}
