/** The base-fee market over whole executions, and blocks cut to fit its window. */
module FeeMarkets {
  import opened Digests
  import opened TrieTree
  import opened Records
  import opened Gas
  import opened Governance
  import opened Wire
  import opened Machine
  import opened Traces
  import opened Execution
  import opened Ledger

  /** The widths of the numbers the market takes, which the source has in its types. */
  predicate Typed(i: Instruction) {
    && (i.ChargeBaseFee? ==> i.timestamp <= U64_MAX)
    && (i.WriteFeeMarket? ==> i.floor <= U128_MAX && i.target <= U64_MAX)
  }

  function MarketAt(crypto: Crypto, s: State): Result<FeeMarket, StepError> {
    MarketIn(Get(s, crypto.path(FeeMarketSlot)))
  }

  lemma MarketReadFits(current: Option<Bytes>)
    requires MarketIn(current).Ok?
    ensures MarketFits(MarketIn(current).value)
  {
    if current.Some? {
      MarketCanonical(current.value);
    }
  }

  lemma NextBaseFeeFits(base: nat, gas: nat, target: nat, floor: nat)
    requires base <= U128_MAX && floor <= U128_MAX && NextBaseFee(base, gas, target, floor).Ok?
    ensures floor <= NextBaseFee(base, gas, target, floor).value <= U128_MAX
  {
    if target > 0 && gas <= target {
      StepDown(base, gas, target, floor);
    }
  }

  lemma RolledFits(m: FeeMarket, timestamp: nat)
    requires MarketFits(m) && timestamp <= U64_MAX && At(m, timestamp).Ok?
    ensures MarketFits(At(m, timestamp).value)
    ensures timestamp > m.windowTs ==> m.floor <= At(m, timestamp).value.baseFee
  {
    if timestamp > m.windowTs {
      NextBaseFeeFits(m.baseFee, m.windowGas, m.target, m.floor);
    }
  }

  lemma RolledStands(m: FeeMarket, timestamp: nat)
    requires At(m, timestamp).Ok?
    ensures At(m, timestamp).value.windowTs == timestamp && At(m, timestamp).value.floor == m.floor
  {
  }

  // ----- the floor

  ghost predicate FloorHolds(crypto: Crypto, s: State) {
    MarketAt(crypto, s).Ok? ==> MarketAt(crypto, s).value.floor <= MarketAt(crypto, s).value.baseFee
  }

  lemma ChargedMarket(crypto: Crypto, timestamp: nat, baseFee: nat, gas: nat, current: Option<Bytes>)
    requires timestamp <= U64_MAX && Transition(crypto, ChargeBaseFee(timestamp, baseFee, gas), current).Ok?
    ensures MarketIn(current).Ok? && ChargeMarket(MarketIn(current).value, timestamp, baseFee, gas).Ok?
    ensures MarketIn(Some(Transition(crypto, ChargeBaseFee(timestamp, baseFee, gas), current).value))
         == ChargeMarket(MarketIn(current).value, timestamp, baseFee, gas)
  {
    MarketReadFits(current);
    var m := MarketIn(current).value;
    RolledFits(m, timestamp);
    var charged := ChargeMarket(m, timestamp, baseFee, gas).value;
    assert Transition(crypto, ChargeBaseFee(timestamp, baseFee, gas), current) == Ok(EncodeMarket(charged));
    MarketRoundTrip(charged);
  }

  lemma WrittenMarket(crypto: Crypto, floor: nat, target: nat, current: Option<Bytes>)
    requires floor <= U128_MAX && target <= U64_MAX && Transition(crypto, WriteFeeMarket(floor, target), current).Ok?
    ensures MarketIn(current).Ok?
    ensures MarketIn(Some(Transition(crypto, WriteFeeMarket(floor, target), current).value))
         == Ok(SetMarket(MarketIn(current).value, floor, target))
  {
    MarketReadFits(current);
    var m := SetMarket(MarketIn(current).value, floor, target);
    assert Transition(crypto, WriteFeeMarket(floor, target), current) == Ok(EncodeMarket(m));
    MarketRoundTrip(m);
  }

  lemma StepKeepsFloor(crypto: Crypto, slots: set<Slot>, s: State, i: Instruction)
    requires Separates(crypto, slots) && SlotOf(i) in slots && FeeMarketSlot in slots && Typed(i)
    requires FloorHolds(crypto, s) && Apply(crypto, s, i).Ok?
    ensures FloorHolds(crypto, Apply(crypto, s, i).value)
  {
    var current := Get(s, crypto.path(FeeMarketSlot));
    if i.ChargeBaseFee? {
      OwnSlot(crypto, s, i);
      ChargedMarket(crypto, i.timestamp, i.baseFee, i.gas, current);
      MarketReadFits(current);
      RolledFits(MarketIn(current).value, i.timestamp);
      RolledStands(MarketIn(current).value, i.timestamp);
    } else if i.WriteFeeMarket? {
      OwnSlot(crypto, s, i);
      WrittenMarket(crypto, i.floor, i.target, current);
    } else {
      OtherSlots(crypto, s, i, FeeMarketSlot);
    }
  }

  /** The base fee never falls below its floor: not in any execution of any instructions. */
  lemma {:induction false} FloorAlways(crypto: Crypto, slots: set<Slot>, s: State, ins: seq<Instruction>)
    requires Separates(crypto, slots) && Touches(ins, slots) && FeeMarketSlot in slots && (forall i :: i in ins ==> Typed(i))
    requires FloorHolds(crypto, s) && Replay(StepOf(crypto), s, ins).Ok?
    ensures FloorHolds(crypto, Replay(StepOf(crypto), s, ins).value)
    decreases |ins|
  {
    if ins != [] {
      var front, last := ins[..|ins| - 1], ins[|ins| - 1];
      FloorAlways(crypto, slots, s, front);
      var t := Replay(StepOf(crypto), s, front).value;
      assert StepOf(crypto)(t, last) == Apply(crypto, t, last);
      StepKeepsFloor(crypto, slots, t, last);
    }
  }

  // ----- budgets, for any step function

  type Cost = Instruction -> nat

  function CostSum(cost: Cost, ins: seq<Instruction>): nat {
    if ins == [] then 0 else CostSum(cost, ins[..|ins| - 1]) + cost(ins[|ins| - 1])
  }

  /** While the total spent stays within the limit, the invariant moves on with the spending and no
      step fails with a fault. */
  ghost predicate Budgeted(step: Step, good: (State, nat) -> bool, cost: Cost, limit: nat, fault: StepError -> bool, i: Instruction) {
    forall t: State, c: nat :: good(t, c) && c + cost(i) <= limit ==> Within(step, good, cost, fault, t, c, i)
  }

  ghost predicate Within(step: Step, good: (State, nat) -> bool, cost: Cost, fault: StepError -> bool, t: State, c: nat, i: Instruction) {
    match step(t, i)
    case Ok(u) => good(u, c + cost(i))
    case Err(e) => !fault(e)
  }

  ghost predicate Faultless<T, E>(r: Result<T, BatchError<E>>, fault: StepError -> bool) {
    r.Err? && r.error.StepFailed? ==> !fault(r.error.failure)
  }

  lemma {:induction false} StepsWithinBudget<E>(step: Step, good: (State, nat) -> bool, cost: Cost, limit: nat,
                                               fault: StepError -> bool, s: State, tr: Trace, ins: seq<Instruction>, index: nat, c: nat)
    requires good(s, c) && c + CostSum(cost, ins) <= limit
    requires forall i :: i in ins ==> Budgeted(step, good, cost, limit, fault, i)
    ensures Faultless(Steps<E>(step, s, tr, ins, index), fault)
    ensures Steps<E>(step, s, tr, ins, index).Ok? ==> good(Steps<E>(step, s, tr, ins, index).value.0, c + CostSum(cost, ins))
    decreases |ins|
  {
    if ins != [] {
      var front, last := ins[..|ins| - 1], ins[|ins| - 1];
      StepsWithinBudget<E>(step, good, cost, limit, fault, s, tr, front, index, c);
      var before := Steps<E>(step, s, tr, front, index);
      if before.Ok? {
        assert Budgeted(step, good, cost, limit, fault, last);
        assert Within(step, good, cost, fault, before.value.0, c + CostSum(cost, front), last);
      }
    }
  }

  function PriceSum(price: Transaction -> nat, txs: seq<Transaction>): nat {
    if txs == [] then 0 else PriceSum(price, txs[..|txs| - 1]) + price(txs[|txs| - 1])
  }

  /** What a compiled transaction costs is its price, and each of its steps is budgeted. */
  ghost predicate Priced<E>(compile: Compiler<E>, step: Step, good: (State, nat) -> bool, cost: Cost, limit: nat,
                            fault: StepError -> bool, price: Transaction -> nat, t: Transaction)
  {
    compile(t).Ok? ==>
      && CostSum(cost, compile(t).value) <= price(t)
      && forall i :: i in compile(t).value ==> Budgeted(step, good, cost, limit, fault, i)
  }

  lemma {:induction false} BatchWithinBudget<E>(compile: Compiler<E>, step: Step, good: (State, nat) -> bool, cost: Cost, limit: nat,
                                               fault: StepError -> bool, price: Transaction -> nat, s: State, txs: seq<Transaction>)
      returns (spent: nat)
    requires good(s, 0) && PriceSum(price, txs) <= limit
    requires forall t :: t in txs ==> Priced(compile, step, good, cost, limit, fault, price, t)
    ensures spent <= PriceSum(price, txs)
    ensures Faultless(RunBatch(compile, step, s, txs), fault)
    ensures RunBatch(compile, step, s, txs).Ok? ==> good(RunBatch(compile, step, s, txs).value.0, spent)
    decreases |txs|
  {
    if txs == [] {
      spent := 0;
    } else {
      var n := |txs| - 1;
      spent := BatchWithinBudget(compile, step, good, cost, limit, fault, price, s, txs[..n]);
      var before := RunBatch(compile, step, s, txs[..n]);
      assert Priced(compile, step, good, cost, limit, fault, price, txs[n]);
      if before.Ok? && compile(txs[n]).Ok? {
        StepsWithinBudget<E>(step, good, cost, limit, fault, before.value.0, MarkStart(before.value.1), compile(txs[n]).value, n, spent);
        spent := spent + CostSum(cost, compile(txs[n]).value);
      }
    }
  }

  // ----- the fee window as a budget

  /** The ways a base-fee charge fails. */
  predicate FeeFault(e: StepError) {
    e.GasFault? || e.BaseFeeMismatch? || e.WindowFull?
  }

  function GasCost(i: Instruction): nat {
    if i.ChargeBaseFee? then i.gas else 0
  }

  type Market = State -> Result<FeeMarket, StepError>

  /** A step that is no business of the market's leaves it alone and never faults over a fee. */
  ghost predicate Quiet(step: Step, market: Market, t: State, i: Instruction) {
    && (step(t, i).Ok? ==> market(step(t, i).value) == market(t))
    && (step(t, i).Err? ==> !FeeFault(step(t, i).error))
  }

  /** A charge the market can take succeeds and is taken. */
  ghost predicate Charges(step: Step, market: Market, t: State, i: Instruction)
    requires i.ChargeBaseFee?
  {
    market(t).Ok? && ChargeMarket(market(t).value, i.timestamp, i.baseFee, i.gas).Ok? ==>
      step(t, i).Ok? && market(step(t, i).value) == ChargeMarket(market(t).value, i.timestamp, i.baseFee, i.gas)
  }

  /** How a machine treats its fee market. */
  ghost predicate FeeMachine(step: Step, market: Market, slots: set<Slot>) {
    forall t: State, i: Instruction :: SlotOf(i) in slots && Typed(i) && !i.WriteFeeMarket? ==>
      if i.ChargeBaseFee? then Charges(step, market, t, i) else Quiet(step, market, t, i)
  }

  function MarketOf(crypto: Crypto): Market {
    (t: State) => MarketAt(crypto, t)
  }

  lemma AccountFailures(crypto: Crypto, i: Instruction, current: Option<Bytes>)
    requires OnAccount(i) && Transition(crypto, i, current).Err?
    ensures !FeeFault(Transition(crypto, i, current).error)
  {
  }

  lemma CouncilFailures(crypto: Crypto, i: Instruction, current: Option<Bytes>)
    requires i.VerifyCouncil? && Transition(crypto, i, current).Err?
    ensures !FeeFault(Transition(crypto, i, current).error)
  {
  }

  lemma WriteFailures(crypto: Crypto, i: Instruction, current: Option<Bytes>)
    requires i.WriteGasAsset? || i.WriteParameter? || i.WriteFeeMarket? || i.WriteFeeSplit?
    requires Transition(crypto, i, current).Err?
    ensures !FeeFault(Transition(crypto, i, current).error)
  {
  }

  lemma OtherFailures(crypto: Crypto, i: Instruction, current: Option<Bytes>)
    requires !i.ChargeBaseFee? && Transition(crypto, i, current).Err?
    ensures !FeeFault(Transition(crypto, i, current).error)
  {
    if OnAccount(i) {
      AccountFailures(crypto, i, current);
    } else if i.VerifyCouncil? {
      CouncilFailures(crypto, i, current);
    } else if i.WriteGasAsset? || i.WriteParameter? || i.WriteFeeMarket? || i.WriteFeeSplit? {
      WriteFailures(crypto, i, current);
    }
  }

  lemma QuietStep(crypto: Crypto, slots: set<Slot>, t: State, i: Instruction)
    requires Separates(crypto, slots) && SlotOf(i) in slots && FeeMarketSlot in slots
    requires !i.ChargeBaseFee? && !i.WriteFeeMarket?
    ensures Quiet(StepOf(crypto), MarketOf(crypto), t, i)
  {
    if Apply(crypto, t, i).Ok? {
      OtherSlots(crypto, t, i, FeeMarketSlot);
    } else {
      OtherFailures(crypto, i, Get(t, Where(crypto, i)));
    }
  }

  lemma ChargeStep(crypto: Crypto, t: State, i: Instruction)
    requires i.ChargeBaseFee? && Typed(i)
    ensures Charges(StepOf(crypto), MarketOf(crypto), t, i)
  {
    var current := Get(t, crypto.path(FeeMarketSlot));
    if MarketIn(current).Ok? && ChargeMarket(MarketIn(current).value, i.timestamp, i.baseFee, i.gas).Ok? {
      assert Transition(crypto, i, current).Ok?;
      ChargedMarket(crypto, i.timestamp, i.baseFee, i.gas, current);
      OwnSlot(crypto, t, i);
    }
  }

  lemma MachineCharges(crypto: Crypto, slots: set<Slot>)
    requires Separates(crypto, slots) && FeeMarketSlot in slots
    ensures FeeMachine(StepOf(crypto), MarketOf(crypto), slots)
  {
    forall t: State, i: Instruction | SlotOf(i) in slots && Typed(i) && !i.WriteFeeMarket?
      ensures if i.ChargeBaseFee? then Charges(StepOf(crypto), MarketOf(crypto), t, i) else Quiet(StepOf(crypto), MarketOf(crypto), t, i)
    {
      if i.ChargeBaseFee? {
        ChargeStep(crypto, t, i);
      } else {
        QuietStep(crypto, slots, t, i);
      }
    }
  }

  /** The state's market stands, at the batch's timestamp, at `w` with `spent` more gas used. */
  predicate Stands(market: Market, w: FeeMarket, s: State, spent: nat) {
    && market(s).Ok?
    && At(market(s).value, w.windowTs) == Ok(w.(windowGas := w.windowGas + spent))
  }

  function StandsAt(market: Market, w: FeeMarket): (State, nat) -> bool {
    (s: State, spent: nat) => Stands(market, w, s, spent)
  }

  /** A charge at the batch's own timestamp and base fee. */
  predicate Matches(w: FeeMarket, i: Instruction) {
    && !i.WriteFeeMarket?
    && (i.ChargeBaseFee? ==> i.timestamp == w.windowTs && i.baseFee == w.baseFee)
  }

  function Budget(w: FeeMarket): nat {
    if w.windowGas < WindowLimit(w) then WindowLimit(w) - w.windowGas else 0
  }

  lemma StandingCharge(market: Market, w: FeeMarket, t: State, c: nat, gas: nat)
    requires Stands(market, w, t, c) && w.windowGas + c + gas <= WindowLimit(w)
    ensures ChargeMarket(market(t).value, w.windowTs, w.baseFee, gas) == Ok(w.(windowGas := w.windowGas + (c + gas)))
  {
  }

  /** Within the window's remaining gas, no step faults over a fee. */
  lemma StepBudgeted(step: Step, market: Market, slots: set<Slot>, w: FeeMarket, i: Instruction)
    requires FeeMachine(step, market, slots) && SlotOf(i) in slots && Typed(i) && Matches(w, i)
    requires w.windowGas <= WindowLimit(w)
    ensures Budgeted(step, StandsAt(market, w), GasCost, Budget(w), FeeFault, i)
  {
    forall t: State, c: nat | StandsAt(market, w)(t, c) && c + GasCost(i) <= Budget(w)
      ensures Within(step, StandsAt(market, w), GasCost, FeeFault, t, c, i)
    {
      if i.ChargeBaseFee? {
        StandingCharge(market, w, t, c, i.gas);
        assert Charges(step, market, t, i);
      } else {
        assert Quiet(step, market, t, i);
      }
    }
  }

  // ----- what a batch charges

  /** A transaction's price in gas; one that states no gas fills any budget. */
  function PriceOf(t: Transaction): nat {
    if GasRequired(t).Ok? then GasRequired(t).value else U64_MAX
  }

  predicate SetsMarket(t: Transaction) {
    t.payload.Governance? && t.payload.update.SetFeeMarket?
  }

  lemma {:induction false} CostAppend(cost: Cost, a: seq<Instruction>, b: seq<Instruction>)
    ensures CostSum(cost, a + b) == CostSum(cost, a) + CostSum(cost, b)
    decreases |b|
  {
    if b == [] {
      assert a + b == a;
    } else {
      assert (a + b)[..|a + b| - 1] == a + b[..|b| - 1];
      CostAppend(cost, a, b[..|b| - 1]);
    }
  }

  lemma {:induction false} CostFree(cost: Cost, ins: seq<Instruction>)
    requires forall i :: i in ins ==> cost(i) == 0
    ensures CostSum(cost, ins) == 0
    decreases |ins|
  {
    if ins != [] {
      CostFree(cost, ins[..|ins| - 1]);
    }
  }

  /** Instructions that neither charge nor rewrite the market. */
  predicate Idle(i: Instruction) {
    !i.ChargeBaseFee? && !i.WriteFeeMarket?
  }

  lemma PayloadIdle(t: Transaction)
    requires !SetsMarket(t) && CompilePayload(t.payload, t.sender).Ok?
    ensures forall i :: i in CompilePayload(t.payload, t.sender).value ==> Idle(i)
  {
    if t.payload.DistributeFees? {
      ShareCreditsAreCredits(t.payload.asset, SharesOf(t.payload.split.beneficiaries, t.payload.amount).value);
    }
  }

  /** What comes before a transaction's charge, and after it. */
  function BeforeCharge(t: Transaction): seq<Instruction> {
    (if t.authenticator.Keyless? then [VerifyJwk(t.authenticator.sig.issHash, t.authenticator.sig.jwkHash)] else []) +
    [ConsumeNonce(t.sender, t.nonce), VerifyGasAsset(t.feeAsset, t.feeRate, t.feeIntrinsicGas)]
  }

  function AfterCharge(t: Transaction, ctx: BatchContext): seq<Instruction>
    requires ChargeAndPayload(t, ctx).Ok?
  {
    var charge, payload := ChargeAndPayload(t, ctx).value.0, ChargeAndPayload(t, ctx).value.1;
    [Debit(t.sender, t.feeAsset, charge.hold)] + payload + Epilogue(t, ctx, charge)
  }

  lemma SettledGas(t: Transaction, ctx: BatchContext)
    requires ChargeAndPayload(t, ctx).Ok?
    ensures ChargeAndPayload(t, ctx).value.0.gasUsed == PriceOf(t)
    ensures CompilePayload(t.payload, t.sender) == Ok(ChargeAndPayload(t, ctx).value.1)
  {
  }

  lemma PrologueAroundCharge(t: Transaction, ctx: BatchContext, charge: FeeCharge)
    ensures Prologue(t, ctx, charge)
         == BeforeCharge(t) + [ChargeBaseFee(ctx.timestamp, ctx.baseFee, charge.gasUsed)] + [Debit(t.sender, t.feeAsset, charge.hold)]
  {
  }

  lemma AroundCharge(rules: Rules, t: Transaction, ctx: BatchContext)
    requires Compile(rules, t, ctx).Ok?
    ensures ChargeAndPayload(t, ctx).Ok?
    ensures Compile(rules, t, ctx).value
         == BeforeCharge(t) + [ChargeBaseFee(ctx.timestamp, ctx.baseFee, PriceOf(t))] + AfterCharge(t, ctx)
  {
    SettledGas(t, ctx);
    var charge, payload := ChargeAndPayload(t, ctx).value.0, ChargeAndPayload(t, ctx).value.1;
    PrologueAroundCharge(t, ctx, charge);
    Regroup(BeforeCharge(t), [ChargeBaseFee(ctx.timestamp, ctx.baseFee, PriceOf(t))],
            [Debit(t.sender, t.feeAsset, charge.hold)], payload, Epilogue(t, ctx, charge));
  }

  lemma AroundIdle(t: Transaction, ctx: BatchContext)
    requires ChargeAndPayload(t, ctx).Ok? && !SetsMarket(t)
    ensures forall i :: i in BeforeCharge(t) || i in AfterCharge(t, ctx) ==> Idle(i)
  {
    SettledGas(t, ctx);
    PayloadIdle(t);
  }

  lemma OneCharge(before: seq<Instruction>, i: Instruction, after: seq<Instruction>)
    requires i.ChargeBaseFee? && forall j :: j in before || j in after ==> Idle(j)
    ensures CostSum(GasCost, before + [i] + after) == i.gas
    ensures forall j :: j in before + [i] + after ==> Idle(j) || j == i
  {
    CostFree(GasCost, before);
    CostFree(GasCost, after);
    CostAppend(GasCost, before, [i]);
    CostAppend(GasCost, before + [i], after);
    assert [i][..0] == [];
  }

  /** A compiled transaction charges its price in gas, once, at the batch's timestamp and base fee. */
  lemma CompiledCharge(rules: Rules, t: Transaction, ctx: BatchContext)
    requires Compile(rules, t, ctx).Ok? && !SetsMarket(t)
    ensures CostSum(GasCost, Compile(rules, t, ctx).value) == PriceOf(t)
    ensures forall i :: i in Compile(rules, t, ctx).value ==> Idle(i) || i == ChargeBaseFee(ctx.timestamp, ctx.baseFee, PriceOf(t))
  {
    AroundCharge(rules, t, ctx);
    AroundIdle(t, ctx);
    OneCharge(BeforeCharge(t), ChargeBaseFee(ctx.timestamp, ctx.baseFee, PriceOf(t)), AfterCharge(t, ctx));
  }

  // ----- the window a batch leaves

  predicate Stamped(i: Instruction, timestamp: nat) {
    i.ChargeBaseFee? ==> i.timestamp == timestamp
  }

  /** The state's market is in the window of a timestamp. */
  predicate SetTo(crypto: Crypto, s: State, timestamp: nat) {
    MarketAt(crypto, s).Ok? && MarketAt(crypto, s).value.windowTs == timestamp
  }

  /** An execution over slots kept apart, of instructions of the source's widths. */
  ghost predicate KeptApart(crypto: Crypto, slots: set<Slot>, ins: seq<Instruction>) {
    Separates(crypto, slots) && FeeMarketSlot in slots && Touches(ins, slots) && forall i :: i in ins ==> Typed(i)
  }

  lemma StepStamps(crypto: Crypto, slots: set<Slot>, s: State, i: Instruction, timestamp: nat)
    requires Separates(crypto, slots) && SlotOf(i) in slots && FeeMarketSlot in slots && Typed(i) && Stamped(i, timestamp)
    requires Apply(crypto, s, i).Ok? && (i.ChargeBaseFee? || SetTo(crypto, s, timestamp))
    ensures SetTo(crypto, Apply(crypto, s, i).value, timestamp)
  {
    var current := Get(s, crypto.path(FeeMarketSlot));
    if i.ChargeBaseFee? {
      OwnSlot(crypto, s, i);
      ChargedMarket(crypto, i.timestamp, i.baseFee, i.gas, current);
      RolledStands(MarketIn(current).value, i.timestamp);
    } else if i.WriteFeeMarket? {
      OwnSlot(crypto, s, i);
      WrittenMarket(crypto, i.floor, i.target, current);
    } else {
      OtherSlots(crypto, s, i, FeeMarketSlot);
    }
  }

  /** Once a charge has been made the market stays in its window: nothing else moves it. */
  lemma {:induction false} ReplayStamps(crypto: Crypto, slots: set<Slot>, s: State, ins: seq<Instruction>, timestamp: nat)
    requires KeptApart(crypto, slots, ins) && (forall i :: i in ins ==> Stamped(i, timestamp)) && Replay(StepOf(crypto), s, ins).Ok?
    ensures (exists i :: i in ins && i.ChargeBaseFee?) ==> SetTo(crypto, Replay(StepOf(crypto), s, ins).value, timestamp)
    decreases |ins|
  {
    if ins != [] {
      var front, last := ins[..|ins| - 1], ins[|ins| - 1];
      ReplayStamps(crypto, slots, s, front, timestamp);
      var t := Replay(StepOf(crypto), s, front).value;
      assert StepOf(crypto)(t, last) == Apply(crypto, t, last);
      if i :| i in ins && i.ChargeBaseFee? {
        assert i in front || i == last;
        StepStamps(crypto, slots, t, last, timestamp);
      }
    }
  }

  lemma PayloadUncharged(t: Transaction)
    requires CompilePayload(t.payload, t.sender).Ok?
    ensures forall i :: i in CompilePayload(t.payload, t.sender).value ==> !i.ChargeBaseFee?
  {
    if t.payload.DistributeFees? {
      ShareCreditsAreCredits(t.payload.asset, SharesOf(t.payload.split.beneficiaries, t.payload.amount).value);
    }
  }

  lemma AroundUncharged(t: Transaction, ctx: BatchContext)
    requires ChargeAndPayload(t, ctx).Ok?
    ensures forall i :: i in BeforeCharge(t) || i in AfterCharge(t, ctx) ==> !i.ChargeBaseFee?
  {
    SettledGas(t, ctx);
    PayloadUncharged(t);
  }

  /** Whatever it does, a compiled transaction charges at its batch's timestamp and no other. */
  lemma CompiledStamped(rules: Rules, t: Transaction, ctx: BatchContext)
    requires Compile(rules, t, ctx).Ok?
    ensures forall i :: i in Compile(rules, t, ctx).value ==> Stamped(i, ctx.timestamp)
    ensures ChargeBaseFee(ctx.timestamp, ctx.baseFee, PriceOf(t)) in Compile(rules, t, ctx).value
  {
    AroundCharge(rules, t, ctx);
    AroundUncharged(t, ctx);
    InMiddle(BeforeCharge(t), ChargeBaseFee(ctx.timestamp, ctx.baseFee, PriceOf(t)), AfterCharge(t, ctx));
  }

  lemma InMiddle<T>(a: seq<T>, x: T, b: seq<T>)
    ensures x in a + [x] + b && forall y :: y in a + [x] + b ==> y in a || y == x || y in b
  {
    assert (a + [x] + b)[|a|] == x;
  }

  /** A batch that executes leaves the market in the window of the batch's own timestamp. */
  lemma BatchSetsWindow(rules: Rules, ctx: BatchContext, s: State, txs: seq<Transaction>, slots: set<Slot>)
    requires txs != [] && ExecuteBatch(rules, ctx, s, txs).Ok?
    requires KeptApart(rules.crypto, slots, ExecuteBatch(rules, ctx, s, txs).value.1.instructions)
    ensures SetTo(rules.crypto, ExecuteBatch(rules, ctx, s, txs).value.0, ctx.timestamp)
  {
    var compile, step := CompilerOf(rules, ctx), StepOf(rules.crypto);
    BatchIsHonest(compile, step, s, txs);
    var ins := ExecuteBatch(rules, ctx, s, txs).value.1.instructions;
    forall i | i in ins ensures Stamped(i, ctx.timestamp) {
      var t := ProgramFrom(compile, txs, i);
      CompiledStamped(rules, t, ctx);
    }
    var charge := ChargeBaseFee(ctx.timestamp, ctx.baseFee, PriceOf(txs[0]));
    if compile(txs[0]).Ok? {
      CompiledStamped(rules, txs[0], ctx);
    }
    ProgramHas(compile, txs, txs[0], charge);
    ReplayStamps(rules.crypto, slots, s, ins, ctx.timestamp);
  }

  // ----- block cutting

  /** The market a state holds, rolled to a batch's timestamp. */
  ghost predicate RollsTo(crypto: Crypto, s: State, timestamp: nat, w: FeeMarket) {
    && timestamp <= U64_MAX && MarketAt(crypto, s).Ok? && At(MarketAt(crypto, s).value, timestamp) == Ok(w)
  }

  lemma TransactionPriced(rules: Rules, ctx: BatchContext, slots: set<Slot>, w: FeeMarket, t: Transaction)
    requires FeeMachine(StepOf(rules.crypto), MarketOf(rules.crypto), slots)
    requires ctx.timestamp == w.windowTs <= U64_MAX && ctx.baseFee == w.baseFee && w.windowGas <= WindowLimit(w)
    requires !SetsMarket(t) && (Compile(rules, t, ctx).Ok? ==> Touches(Compile(rules, t, ctx).value, slots))
    ensures Priced(CompilerOf(rules, ctx), StepOf(rules.crypto), StandsAt(MarketOf(rules.crypto), w), GasCost, Budget(w), FeeFault, PriceOf, t)
  {
    if Compile(rules, t, ctx).Ok? {
      CompiledCharge(rules, t, ctx);
      forall i | i in Compile(rules, t, ctx).value
        ensures Budgeted(StepOf(rules.crypto), StandsAt(MarketOf(rules.crypto), w), GasCost, Budget(w), FeeFault, i)
      {
        StepBudgeted(StepOf(rules.crypto), MarketOf(rules.crypto), slots, w, i);
      }
    }
  }

  /** A batch whose gas fits what the window has left, stamped with the window's own timestamp and
      base fee, never fails a base-fee charge, whatever else may go wrong in it. */
  lemma CutBlocksNeverOverrun(rules: Rules, ctx: BatchContext, s: State, txs: seq<Transaction>, slots: set<Slot>, w: FeeMarket)
    requires Separates(rules.crypto, slots) && FeeMarketSlot in slots
    requires forall t :: t in txs && Compile(rules, t, ctx).Ok? ==> Touches(Compile(rules, t, ctx).value, slots)
    requires RollsTo(rules.crypto, s, ctx.timestamp, w) && ctx.baseFee == w.baseFee
    requires forall t :: t in txs ==> !SetsMarket(t)
    requires txs != [] ==> w.windowGas + PriceSum(PriceOf, txs) <= WindowLimit(w)
    ensures Faultless(ExecuteBatch(rules, ctx, s, txs), FeeFault)
  {
    if txs != [] {
      MachineCharges(rules.crypto, slots);
      RolledStands(MarketAt(rules.crypto, s).value, ctx.timestamp);
      forall t | t in txs
        ensures Priced(CompilerOf(rules, ctx), StepOf(rules.crypto), StandsAt(MarketOf(rules.crypto), w), GasCost, Budget(w), FeeFault, PriceOf, t)
      {
        TransactionPriced(rules, ctx, slots, w, t);
      }
      var spent := BatchWithinBudget(CompilerOf(rules, ctx), StepOf(rules.crypto), StandsAt(MarketOf(rules.crypto), w), GasCost,
                                     Budget(w), FeeFault, PriceOf, s, txs);
    }
  }
}
