/** No batch mints: each asset's total over all accounts only ever falls, and only by what a fee
    distribution burns. */
module Supplies {
  import opened Digests
  import opened TrieTree
  import opened Records
  import opened Gas
  import opened Governance
  import opened Wire
  import opened Machine
  import opened Traces
  import opened Execution
  import opened Ledger

  /** The total of an asset over a list of addresses. */
  function Supply(crypto: Crypto, s: State, xs: seq<Bytes32>, asset: nat): nat {
    if xs == [] then 0
    else Supply(crypto, s, xs[..|xs| - 1], asset) + Balance(AccountAt(crypto, s, xs[|xs| - 1]), asset)
  }

  ghost predicate Distinct(xs: seq<Bytes32>) {
    forall i, j :: 0 <= i < j < |xs| ==> xs[i] != xs[j]
  }

  /** What an instruction adds to the total. */
  function NetOf(i: Instruction, asset: nat): int {
    match i
    case Debit(_, a, n) => if a == asset then -(n as int) else 0
    case Credit(_, a, n) => if a == asset then n else 0
    case _ => 0
  }

  function Net(asset: nat): Weight {
    (i: Instruction) => NetOf(i, asset)
  }

  function DeltaSum(i: Instruction, xs: seq<Bytes32>, asset: nat): int {
    if xs == [] then 0 else DeltaSum(i, xs[..|xs| - 1], asset) + Delta(i, xs[|xs| - 1], asset)
  }

  predicate Moves(i: Instruction) {
    i.Debit? || i.Credit?
  }

  /** An instruction counts once, for the address it names. */
  lemma {:induction false} CountedOnce(i: Instruction, xs: seq<Bytes32>, asset: nat)
    requires Distinct(xs)
    ensures DeltaSum(i, xs, asset) == if Moves(i) && i.account in xs then NetOf(i, asset) else 0
    decreases |xs|
  {
    if xs != [] {
      CountedOnce(i, xs[..|xs| - 1], asset);
    }
  }

  lemma {:induction false} StepSums(crypto: Crypto, slots: set<Slot>, s: State, i: Instruction, xs: seq<Bytes32>, asset: nat)
    requires Separates(crypto, slots) && SlotOf(i) in slots && (forall x :: x in xs ==> AccountSlot(x) in slots)
    requires Apply(crypto, s, i).Ok? && AssetsFit([i])
    ensures Supply(crypto, Apply(crypto, s, i).value, xs, asset) == Supply(crypto, s, xs, asset) + DeltaSum(i, xs, asset)
    decreases |xs|
  {
    if xs != [] {
      StepSums(crypto, slots, s, i, xs[..|xs| - 1], asset);
      StepOnAccounts(crypto, slots, s, i, xs[|xs| - 1], asset);
    }
  }

  /** Every account an execution moves value in or out of is on the list. */
  ghost predicate Lists(xs: seq<Bytes32>, ins: seq<Instruction>) {
    forall i :: i in ins && Moves(i) ==> i.account in xs
  }

  /** Whatever is executed, the total moves by the instructions' net. */
  lemma ReplayMovesNet(crypto: Crypto, slots: set<Slot>, s: State, ins: seq<Instruction>, xs: seq<Bytes32>, asset: nat)
    requires Separates(crypto, slots) && Touches(ins, slots) && (forall x :: x in xs ==> AccountSlot(x) in slots)
    requires AssetsFit(ins) && Distinct(xs) && Lists(xs, ins)
    requires Replay(StepOf(crypto), s, ins).Ok?
    ensures Supply(crypto, Replay(StepOf(crypto), s, ins).value, xs, asset) == Supply(crypto, s, xs, asset) + Sum(Net(asset), ins)
  {
    var step := StepOf(crypto);
    var measure := (t: State) => Supply(crypto, t, xs, asset) as int;
    forall t: State, i: Instruction | i in ins && step(t, i).Ok?
      ensures measure(step(t, i).value) == measure(t) + Net(asset)(i)
    {
      StepSums(crypto, slots, t, i, xs, asset);
      CountedOnce(i, xs, asset);
    }
    ReplaySums(step, measure, Net(asset), s, ins);
  }

  // ----- what a transaction nets to

  lemma Sum1(w: Weight, a: Instruction)
    ensures Sum(w, [a]) == w(a)
  {
    assert [a][..0] == [];
  }

  lemma Sum2(w: Weight, a: Instruction, b: Instruction)
    ensures Sum(w, [a, b]) == w(a) + w(b)
  {
    assert [a, b] == [a] + [b];
    SumAppend(w, [a], [b]);
    Sum1(w, a);
    Sum1(w, b);
  }

  lemma CreditIfNet(x: Bytes32, a: nat, amount: nat, asset: nat)
    ensures Sum(Net(asset), CreditIf(x, a, amount)) == if a == asset then amount else 0
  {
    if amount > 0 {
      Sum1(Net(asset), Credit(x, a, amount));
    }
  }

  lemma {:induction false} ShareCreditsNet(a: nat, shares: seq<(Bytes32, nat)>, asset: nat)
    ensures Sum(Net(asset), ShareCredits(a, shares)) == if a == asset then ShareSum(shares) else 0
    decreases |shares|
  {
    if shares != [] {
      var front, last := shares[..|shares| - 1], shares[|shares| - 1];
      ShareCreditsNet(a, front, asset);
      CreditIfNet(last.0, a, last.1, asset);
      SumAppend(Net(asset), ShareCredits(a, front), CreditIf(last.0, a, last.1));
    }
  }

  /** What a payload takes out of circulation. */
  function Burned(p: Payload, asset: nat): int {
    if p.DistributeFees? && p.asset == asset && SharesOf(p.split.beneficiaries, p.amount).Ok? then
      p.amount - ShareSum(SharesOf(p.split.beneficiaries, p.amount).value)
    else 0
  }

  lemma PayloadNet(p: Payload, sender: Bytes32, asset: nat)
    requires CompilePayload(p, sender).Ok?
    ensures Sum(Net(asset), CompilePayload(p, sender).value) == -Burned(p, asset)
  {
    var w := Net(asset);
    match p
    case Transfer(to, a, amount) => Sum2(w, Debit(sender, a, amount), Credit(to, a, amount));
    case BindName(_, id) => Sum1(w, BindIdentifier(id, sender));
    case UnbindName(id) => Sum1(w, UnbindIdentifier(id, sender));
    case Governance(epoch, update, sigs) =>
      Sum2(w, VerifyCouncil(epoch, SigningDigest(update, epoch), sigs, GuardianMayApply(update)), UpdateInstruction(update));
    case DistributeFees(a, amount, split) =>
      DistributionNet(a, amount, split, SharesOf(split.beneficiaries, amount).value, asset);
  }

  lemma DistributionNet(a: nat, amount: nat, split: FeeSplit, shares: seq<(Bytes32, nat)>, asset: nat)
    ensures Sum(Net(asset), [VerifyFeeSplit(split), Debit(FEE_VAULT, a, amount)] + ShareCredits(a, shares))
         == if a == asset then ShareSum(shares) - amount else 0
  {
    var w, check, debit := Net(asset), VerifyFeeSplit(split), Debit(FEE_VAULT, a, amount);
    Sum2(w, check, debit);
    ShareCreditsNet(a, shares, asset);
    SumAppend(w, [check, debit], ShareCredits(a, shares));
  }

  lemma PrologueNet(t: Transaction, ctx: BatchContext, charge: FeeCharge, asset: nat)
    ensures Sum(Net(asset), Prologue(t, ctx, charge)) == if t.feeAsset == asset then -(charge.hold as int) else 0
  {
    var w := Net(asset);
    var a, b := ConsumeNonce(t.sender, t.nonce), VerifyGasAsset(t.feeAsset, t.feeRate, t.feeIntrinsicGas);
    var c, d := ChargeBaseFee(ctx.timestamp, ctx.baseFee, charge.gasUsed), Debit(t.sender, t.feeAsset, charge.hold);
    var jwk := if t.authenticator.Keyless? then [VerifyJwk(t.authenticator.sig.issHash, t.authenticator.sig.jwkHash)] else [];
    assert Prologue(t, ctx, charge) == jwk + ([a, b] + [c, d]);
    if jwk != [] {
      Sum1(w, jwk[0]);
    }
    Sum2(w, a, b);
    Sum2(w, c, d);
    SumAppend(w, [a, b], [c, d]);
    SumAppend(w, jwk, [a, b] + [c, d]);
  }

  lemma EpilogueNet(t: Transaction, ctx: BatchContext, charge: FeeCharge, asset: nat)
    ensures Sum(Net(asset), Epilogue(t, ctx, charge)) == if t.feeAsset == asset then charge.refund + charge.tip + charge.base else 0
  {
    var w := Net(asset);
    var x, y := CreditIf(t.sender, t.feeAsset, charge.refund), CreditIf(ctx.feeRecipient, t.feeAsset, charge.tip);
    var z := CreditIf(FEE_VAULT, t.feeAsset, charge.base);
    CreditIfNet(t.sender, t.feeAsset, charge.refund, asset);
    CreditIfNet(ctx.feeRecipient, t.feeAsset, charge.tip, asset);
    CreditIfNet(FEE_VAULT, t.feeAsset, charge.base, asset);
    SumAppend(w, x, y);
    SumAppend(w, x + y, z);
  }

  /** A compiled transaction pays back in fees exactly what it holds: all it nets is the burn. */
  lemma CompiledNet(rules: Rules, t: Transaction, ctx: BatchContext, asset: nat)
    requires Compile(rules, t, ctx).Ok?
    ensures Sum(Net(asset), Compile(rules, t, ctx).value) == -Burned(t.payload, asset) && Burned(t.payload, asset) >= 0
  {
    var charge, payload := ChargeAndPayload(t, ctx).value.0, ChargeAndPayload(t, ctx).value.1;
    var prologue, epilogue := Prologue(t, ctx, charge), Epilogue(t, ctx, charge);
    HoldIsPaidOut(t, ctx);
    PrologueNet(t, ctx, charge, asset);
    PayloadNet(t.payload, t.sender, asset);
    EpilogueNet(t, ctx, charge, asset);
    SumAppend(Net(asset), prologue, payload);
    SumAppend(Net(asset), prologue + payload, epilogue);
    BurnIsNotNegative(t.payload, t.sender, asset);
  }

  lemma HoldIsPaidOut(t: Transaction, ctx: BatchContext)
    requires ChargeAndPayload(t, ctx).Ok?
    ensures var charge := ChargeAndPayload(t, ctx).value.0; charge.refund + charge.tip + charge.base == charge.hold
    ensures CompilePayload(t.payload, t.sender) == Ok(ChargeAndPayload(t, ctx).value.1)
  {
  }

  lemma BurnIsNotNegative(p: Payload, sender: Bytes32, asset: nat)
    requires CompilePayload(p, sender).Ok?
    ensures Burned(p, asset) >= 0
  {
    if p.DistributeFees? {
      DistributionBurn(p.split, p.amount);
    }
  }

  // ----- whole batches

  function BurnedBy(txs: seq<Transaction>, asset: nat): int {
    if txs == [] then 0 else BurnedBy(txs[..|txs| - 1], asset) + Burned(txs[|txs| - 1].payload, asset)
  }

  lemma {:induction false} ProgramNet(rules: Rules, ctx: BatchContext, txs: seq<Transaction>, asset: nat)
    requires Program(CompilerOf(rules, ctx), txs).Ok?
    ensures Sum(Net(asset), Program(CompilerOf(rules, ctx), txs).value) == -BurnedBy(txs, asset) && BurnedBy(txs, asset) >= 0
    decreases |txs|
  {
    if txs != [] {
      var front, last := txs[..|txs| - 1], txs[|txs| - 1];
      ProgramNet(rules, ctx, front, asset);
      CompiledNet(rules, last, ctx, asset);
      SumAppend(Net(asset), Program(CompilerOf(rules, ctx), front).value, Compile(rules, last, ctx).value);
    }
  }

  /** Conservation over a whole batch. Over any list of accounts that includes all those the batch
      pays from or to, the total of each asset falls by exactly what the batch's fee distributions
      burn, which is never negative: nothing is minted and nothing else is lost. */
  lemma SupplyConserved(rules: Rules, ctx: BatchContext, s: State, txs: seq<Transaction>, slots: set<Slot>,
                        xs: seq<Bytes32>, asset: nat)
    requires ExecuteBatch(rules, ctx, s, txs).Ok?
    requires var ins := ExecuteBatch(rules, ctx, s, txs).value.1.instructions;
             AssetsFit(ins) && Touches(ins, slots) && Lists(xs, ins)
    requires Separates(rules.crypto, slots) && Distinct(xs) && forall x :: x in xs ==> AccountSlot(x) in slots
    ensures Supply(rules.crypto, ExecuteBatch(rules, ctx, s, txs).value.0, xs, asset)
         == Supply(rules.crypto, s, xs, asset) - BurnedBy(txs, asset)
    ensures BurnedBy(txs, asset) >= 0
  {
    var compile, step := CompilerOf(rules, ctx), StepOf(rules.crypto);
    BatchIsHonest(compile, step, s, txs);
    ReplayMovesNet(rules.crypto, slots, s, ExecuteBatch(rules, ctx, s, txs).value.1.instructions, xs, asset);
    ProgramNet(rules, ctx, txs, asset);
  }
}
