/** Compilation as the source runs it, pushing instructions onto a growing list. */
module Compiling {
  import opened Digests
  import opened Records
  import opened Gas
  import opened Governance
  import opened Wire
  import opened Machine
  import opened Execution
  import opened Buffers

  method SumGas(ins: seq<Instruction>) returns (gas: nat)
    ensures gas == GasSum(ins)
  {
    gas := 0;
    for i := 0 to |ins|
      invariant gas == GasSum(ins[..i])
    {
      assert ins[..i + 1][..i] == ins[..i];
      gas := gas + InstructionGas(ins[i]);
    }
    assert ins[..|ins|] == ins;
  }

  /** Pushes a credit for each non-zero share. */
  method PushShares(asset: nat, shares: seq<(Bytes32, nat)>, start: seq<Instruction>) returns (ins: seq<Instruction>)
    ensures ins == start + ShareCredits(asset, shares)
  {
    ins := start;
    for i := 0 to |shares|
      invariant ins == start + ShareCredits(asset, shares[..i])
    {
      assert shares[..i + 1][..i] == shares[..i];
      if shares[i].1 > 0 {
        ins := ins + [Credit(shares[i].0, asset, shares[i].1)];
      }
    }
    assert shares[..|shares|] == shares;
  }

  /** Pushes what a payload compiles to. */
  method PushPayload(p: Payload, sender: Bytes32) returns (r: Result<seq<Instruction>, CompileError>)
    ensures r == CompilePayload(p, sender)
  {
    match p
    case Transfer(to, asset, amount) =>
      if to == sender {
        return Err(SelfTransfer);
      }
      return Ok([Debit(sender, asset, amount), Credit(to, asset, amount)]);
    case BindName(_, id) => return Ok([BindIdentifier(id, sender)]);
    case UnbindName(id) => return Ok([UnbindIdentifier(id, sender)]);
    case Governance(epoch, update, sigs) =>
      var permitted := CheckPermitted(update);
      if permitted.Err? {
        return Err(CompileGovernance(permitted.error));
      }
      var check := VerifyCouncil(epoch, SigningDigest(update, epoch), sigs, GuardianMayApply(update));
      return Ok([check, UpdateInstruction(update)]);
    case DistributeFees(asset, amount, split) =>
      var checked := CheckSplit(split);
      if amount == 0 || checked.Err? {
        return Err(BadDistribution);
      }
      var shares := SharesOf(split.beneficiaries, amount);
      if shares.Err? {
        return Err(CompileGas(shares.error));
      }
      var ins := PushShares(asset, shares.value, [VerifyFeeSplit(split), Debit(FEE_VAULT, asset, amount)]);
      return Ok(ins);
  }

  method SettlePayload(t: Transaction, ctx: BatchContext) returns (r: Result<(FeeCharge, seq<Instruction>), CompileError>)
    ensures r == ChargeAndPayload(t, ctx)
  {
    var payload :- PushPayload(t.payload, t.sender);
    var gas := SumGas(payload);
    var total := INTRINSIC_GAS + t.feeIntrinsicGas + (if t.authenticator.Keyless? then KEYLESS_GAS else 0) + gas;
    if total > U64_MAX {
      return Err(CompileGas(GasOverflow));
    }
    var charge := Settle(t.gasLimit, total, t.maxFeePerGas, t.maxPriorityFeePerGas, ctx.baseFee, t.feeRate);
    return if charge.Ok? then Ok((charge.value, payload)) else Err(CompileGas(charge.error));
  }

  /** Pushes the refund, the tip and the base fee, skipping zero amounts. */
  method PushSettlement(asset: nat, due: seq<(Bytes32, nat)>, start: seq<Instruction>) returns (ins: seq<Instruction>)
    requires |due| == 3
    ensures ins == start + (CreditIf(due[0].0, asset, due[0].1) + CreditIf(due[1].0, asset, due[1].1) + CreditIf(due[2].0, asset, due[2].1))
  {
    ins := PushShares(asset, due, start);
    assert due[..2][..1][..0] == [] && due[..2][..1] == due[..1];
    assert ShareCredits(asset, due[..1]) == CreditIf(due[0].0, asset, due[0].1);
    assert ShareCredits(asset, due[..2]) == ShareCredits(asset, due[..1]) + CreditIf(due[1].0, asset, due[1].1);
  }

  /** The checks and the hold, the payload, and the settlement. */
  method PushAll(t: Transaction, ctx: BatchContext, charge: FeeCharge, payload: seq<Instruction>) returns (ins: seq<Instruction>)
    ensures ins == Prologue(t, ctx, charge) + payload + Epilogue(t, ctx, charge)
  {
    ins := [];
    if t.authenticator.Keyless? {
      ins := ins + [VerifyJwk(t.authenticator.sig.issHash, t.authenticator.sig.jwkHash)];
    }
    ins := ins + [ConsumeNonce(t.sender, t.nonce),
                  VerifyGasAsset(t.feeAsset, t.feeRate, t.feeIntrinsicGas),
                  ChargeBaseFee(ctx.timestamp, ctx.baseFee, charge.gasUsed),
                  Debit(t.sender, t.feeAsset, charge.hold)];
    assert ins == Prologue(t, ctx, charge);
    ins := ins + payload;
    ins := PushSettlement(t.feeAsset, [(t.sender, charge.refund), (ctx.feeRecipient, charge.tip), (FEE_VAULT, charge.base)], ins);
  }

  /** `compile`. */
  method CompileTransaction(rules: Rules, t: Transaction, ctx: BatchContext) returns (r: Result<seq<Instruction>, CompileError>)
    ensures r == Compile(rules, t, ctx)
  {
    var encoded := Encode(t);
    if |encoded| > MAX_TRANSACTION_BYTES {
      return Err(CompileWire(TooLarge(|encoded|)));
    }
    if t.payload.Governance? && |t.payload.signatures| > MAX_COUNCIL_SIGNATURES {
      return Err(CompileWire(TooManySignatures));
    }
    if !rules.authentic(t, ctx) {
      return Err(AuthFailed);
    }
    var settled :- SettlePayload(t, ctx);
    var ins := PushAll(t, ctx, settled.0, settled.1);
    return Ok(ins);
  }
}
