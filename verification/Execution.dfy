/** Compiling transactions to instructions and executing batches of them. */
module Execution {
  import opened Digests
  import opened TrieTree
  import opened MerkleTries
  import opened Records
  import opened Gas
  import opened Governance
  import opened Wire
  import opened Machine
  import opened Traces

  /** The vault's address, which no key maps to. */
  const FEE_VAULT: Bytes32 :=
    [0xFE, 0xFE, 0xFE, 0xFE, 0xFE, 0xFE, 0xFE, 0xFE,
     0xFE, 0xFE, 0xFE, 0xFE, 0xFE, 0xFE, 0xFE, 0xFE,
     0xFE, 0xFE, 0xFE, 0xFE, 0xFE, 0xFE, 0xFE, 0xFE,
     0xFE, 0xFE, 0xFE, 0xFE, 0xFE, 0xFE, 0xFE, 0xFE]

  datatype BatchContext = BatchContext(timestamp: nat, baseFee: nat, feeRecipient: Bytes32)

  /** Cryptography, and whether a transaction is authorised in a batch context. */
  datatype Rules = Rules(crypto: Crypto, authentic: (Transaction, BatchContext) -> bool)

  datatype CompileError =
    | AuthFailed
    | BadDistribution
    | SelfTransfer
    | CompileGas(gas: GasError)
    | CompileGovernance(governance: GovernanceError)
    | CompileWire(wire: WireError)

  // ----- gas

  function InstructionGas(i: Instruction): nat {
    match i
    case Debit(_, _, _) => 5_000
    case Credit(_, _, _) => 5_000
    case UnbindIdentifier(_, _) => 5_000
    case VerifyCouncil(_, _, sigs, _) => 10_000 + 3_000 * |sigs|
    case BindIdentifier(_, _) => 20_000
    case WriteGasAsset(_) => 20_000
    case WriteParameter(_, _) => 20_000
    case WriteJwk(_, _, _) => 20_000
    case WriteFeeMarket(_, _) => 20_000
    case WriteFeeSplit(_) => 20_000
    case SwitchOffGasAsset(_) => 20_000
    case VerifyFeeSplit(_) => 2_000
    case ConsumeNonce(_, _) => 0
    case VerifyGasAsset(_, _, _) => 0
    case ChargeBaseFee(_, _, _) => 0
    case VerifyJwk(_, _) => 0
  }

  function GasSum(ins: seq<Instruction>): nat {
    if ins == [] then 0 else GasSum(ins[..|ins| - 1]) + InstructionGas(ins[|ins| - 1])
  }

  /** Intrinsic gas, the fee asset's, the authenticator's and the payload's; every partial sum is
      at most the total, so checking the total is checking each addition. */
  function GasUsed(t: Transaction, payload: seq<Instruction>): Result<nat, GasError> {
    var total := INTRINSIC_GAS + t.feeIntrinsicGas + (if t.authenticator.Keyless? then KEYLESS_GAS else 0) + GasSum(payload);
    if total > U64_MAX then Err(GasOverflow) else Ok(total)
  }

  // ----- compilation

  /** One credit per non-zero share, in order. */
  function ShareCredits(asset: nat, shares: seq<(Bytes32, nat)>): seq<Instruction> {
    if shares == [] then []
    else
      var (account, value) := shares[|shares| - 1];
      ShareCredits(asset, shares[..|shares| - 1]) + (if value > 0 then [Credit(account, asset, value)] else [])
  }

  function UpdateInstruction(u: GovernanceUpdate): Instruction {
    match u
    case SetGasAsset(record) => WriteGasAsset(record)
    case SetParameter(name, value) => WriteParameter(name, value)
    case SetJwk(iss, jwk, active) => WriteJwk(iss, jwk, active)
    case SetFeeMarket(floor, target) => WriteFeeMarket(floor, target)
    case SetFeeSplit(split) => WriteFeeSplit(split)
    case DisableGasAsset(asset) => SwitchOffGasAsset(asset)
  }

  function SigningDigest(u: GovernanceUpdate, epoch: nat): Digest {
    GovernanceDigest(epoch, EncodeUpdate(u))
  }

  /** What a payload compiles to, between holding the fee and settling it. */
  function CompilePayload(p: Payload, sender: Bytes32): Result<seq<Instruction>, CompileError> {
    match p
    case Transfer(to, asset, amount) =>
      if to == sender then Err(SelfTransfer)
      else Ok([Debit(sender, asset, amount), Credit(to, asset, amount)])
    case BindName(_, id) => Ok([BindIdentifier(id, sender)])
    case UnbindName(id) => Ok([UnbindIdentifier(id, sender)])
    case Governance(epoch, update, sigs) =>
      (match CheckPermitted(update)
       case Err(e) => Err(CompileGovernance(e))
       case Ok(_) =>
         Ok([VerifyCouncil(epoch, SigningDigest(update, epoch), sigs, GuardianMayApply(update)), UpdateInstruction(update)]))
    case DistributeFees(asset, amount, split) =>
      if amount == 0 || !SplitOk(split) then Err(BadDistribution)
      else match SharesOf(split.beneficiaries, amount)
        case Err(e) => Err(CompileGas(e))
        case Ok(shares) =>
          Ok([VerifyFeeSplit(split), Debit(FEE_VAULT, asset, amount)] + ShareCredits(asset, shares))
  }

  /** The gas a transaction needs; no signature and no context involved. */
  function GasRequired(t: Transaction): Result<nat, CompileError> {
    var payload :- CompilePayload(t.payload, t.sender);
    match GasUsed(t, payload)
    case Err(e) => Err(CompileGas(e))
    case Ok(g) => Ok(g)
  }

  function ChargeAndPayload(t: Transaction, ctx: BatchContext): Result<(FeeCharge, seq<Instruction>), CompileError> {
    var payload :- CompilePayload(t.payload, t.sender);
    match GasUsed(t, payload)
    case Err(e) => Err(CompileGas(e))
    case Ok(g) =>
      match Settle(t.gasLimit, g, t.maxFeePerGas, t.maxPriorityFeePerGas, ctx.baseFee, t.feeRate)
      case Err(e) => Err(CompileGas(e))
      case Ok(charge) => Ok((charge, payload))
  }

  function CreditIf(account: Bytes32, asset: nat, amount: nat): seq<Instruction> {
    if amount > 0 then [Credit(account, asset, amount)] else []
  }

  /** The checks and the hold in front of every payload. */
  function Prologue(t: Transaction, ctx: BatchContext, charge: FeeCharge): seq<Instruction> {
    (if t.authenticator.Keyless? then [VerifyJwk(t.authenticator.sig.issHash, t.authenticator.sig.jwkHash)] else []) +
    [ConsumeNonce(t.sender, t.nonce),
     VerifyGasAsset(t.feeAsset, t.feeRate, t.feeIntrinsicGas),
     ChargeBaseFee(ctx.timestamp, ctx.baseFee, charge.gasUsed),
     Debit(t.sender, t.feeAsset, charge.hold)]
  }

  /** Refund, tip and base fee, behind every payload. */
  function Epilogue(t: Transaction, ctx: BatchContext, charge: FeeCharge): seq<Instruction> {
    CreditIf(t.sender, t.feeAsset, charge.refund) +
    CreditIf(ctx.feeRecipient, t.feeAsset, charge.tip) +
    CreditIf(FEE_VAULT, t.feeAsset, charge.base)
  }

  /** A pure function of the transaction and the published context. */
  function Compile(rules: Rules, t: Transaction, ctx: BatchContext): Result<seq<Instruction>, CompileError> {
    if |EncodeTx(t)| > MAX_TRANSACTION_BYTES then Err(CompileWire(TooLarge(|EncodeTx(t)|)))
    else if t.payload.Governance? && |t.payload.signatures| > MAX_COUNCIL_SIGNATURES then
      Err(CompileWire(TooManySignatures))
    else if !rules.authentic(t, ctx) then Err(AuthFailed)
    else
      var (charge, payload) :- ChargeAndPayload(t, ctx);
      Ok(Prologue(t, ctx, charge) + payload + Epilogue(t, ctx, charge))
  }

  lemma {:induction false} ShareCreditsAreCredits(asset: nat, shares: seq<(Bytes32, nat)>)
    ensures forall i :: i in ShareCredits(asset, shares) ==> i.Credit?
    decreases |shares|
  {
    if shares != [] {
      ShareCreditsAreCredits(asset, shares[..|shares| - 1]);
    }
  }

  lemma Regroup<T>(a: seq<T>, b: seq<T>, c: seq<T>, d: seq<T>, e: seq<T>)
    ensures a + b + c + d + e == a + b + (c + d + e)
  {
  }

  // ----- the machine's own step and compiler

  function StepOf(crypto: Crypto): Step {
    (s: State, i: Instruction) => Apply(crypto, s, i)
  }

  function CompilerOf(rules: Rules, ctx: BatchContext): Compiler<CompileError> {
    (t: Transaction) => Compile(rules, t, ctx)
  }

  /** A batch from `s`, as every honest node executes it. */
  function ExecuteBatch(rules: Rules, ctx: BatchContext, s: State, txs: seq<Transaction>)
    : Result<(State, Trace), BatchError<CompileError>>
  {
    RunBatch(CompilerOf(rules, ctx), StepOf(rules.crypto), s, txs)
  }

  /** `execute_batch` on the trie. On failure the trie holds what the steps before it left. */
  method ExecuteBatchOn(rules: Rules, ctx: BatchContext, trie: MerkleTrie, txs: seq<Transaction>)
    returns (r: Result<Trace, BatchError<CompileError>>)
    requires trie.Valid()
    modifies trie
    ensures trie.Valid() && old(trie.history) <= trie.history
    ensures match ExecuteBatch(rules, ctx, old(trie.Now()), txs)
            case Ok((s, tr)) => r == Ok(tr) && trie.Now() == s
            case Err(e) => r == Err(e)
  {
    ghost var s0 := trie.Now();
    ghost var compile, step := CompilerOf(rules, ctx), StepOf(rules.crypto);
    var tr := Trace([], [MachineState(trie.root, 0)], []);
    for index := 0 to |txs|
      invariant trie.Valid() && old(trie.history) <= trie.history
      invariant RunBatch(compile, step, s0, txs[..index]) == Ok((trie.Now(), tr))
    {
      ghost var upto := txs[..index + 1];
      assert upto[..index] == txs[..index] && upto[index] == txs[index];
      var next := ExecuteTransactionOn(rules, ctx, trie, tr, txs[index], index);
      if next.Err? {
        FailurePropagates(compile, step, s0, txs, index + 1);
        return next;
      }
      tr := next.value;
    }
    assert txs[..|txs|] == txs;
    return Ok(tr);
  }

  /** One transaction: where it starts, and its instructions. */
  method ExecuteTransactionOn(rules: Rules, ctx: BatchContext, trie: MerkleTrie, start: Trace, t: Transaction, index: nat)
    returns (r: Result<Trace, BatchError<CompileError>>)
    requires trie.Valid()
    modifies trie
    ensures trie.Valid() && old(trie.history) <= trie.history
    ensures match OneTransaction(CompilerOf(rules, ctx), StepOf(rules.crypto), old(trie.Now()), start, t, index)
            case Ok((s, tr)) => r == Ok(tr) && trie.Now() == s
            case Err(e) => r == Err(e)
  {
    var compiled := Compile(rules, t, ctx);
    if compiled.Err? {
      return Err(CompileFailed(index, compiled.error));
    }
    var tr := start.(txStarts := start.txStarts + [|start.instructions|]);
    r := ExecuteStepsOn(rules.crypto, trie, tr, compiled.value, index);
  }

  /** The inner loop: one transaction's instructions. */
  method ExecuteStepsOn(crypto: Crypto, trie: MerkleTrie, start: Trace, ins: seq<Instruction>, index: nat)
    returns (r: Result<Trace, BatchError<CompileError>>)
    requires trie.Valid()
    modifies trie
    ensures trie.Valid() && old(trie.history) <= trie.history
    ensures match Steps<CompileError>(StepOf(crypto), old(trie.Now()), start, ins, index)
            case Ok((s, tr)) => r == Ok(tr) && trie.Now() == s
            case Err(e) => r == Err(e)
  {
    ghost var s0 := trie.Now();
    var tr := start;
    for i := 0 to |ins|
      invariant trie.Valid() && old(trie.history) <= trie.history
      invariant Steps<CompileError>(StepOf(crypto), s0, start, ins[..i], index) == Ok((trie.Now(), tr))
    {
      assert ins[..i + 1][..i] == ins[..i];
      var root := ApplyTo(crypto, trie, ins[i]);
      if root.Err? {
        StepsFailurePropagates<CompileError>(StepOf(crypto), s0, start, ins, index, i + 1);
        return Err(StepFailed(index, |tr.instructions|, root.error));
      }
      tr := tr.(instructions := tr.instructions + [ins[i]],
                states := tr.states + [MachineState(root.value, |tr.instructions| + 1)]);
    }
    assert ins[..|ins|] == ins;
    return Ok(tr);
  }

  lemma {:induction false} ReplayCommits(crypto: Crypto, s: State, ins: seq<Instruction>)
    requires Commits(s) && Replay(StepOf(crypto), s, ins).Ok?
    ensures Commits(Replay(StepOf(crypto), s, ins).value)
    decreases |ins|
  {
    if ins != [] {
      ReplayCommits(crypto, s, ins[..|ins| - 1]);
      ApplyCommits(crypto, Replay(StepOf(crypto), s, ins[..|ins| - 1]).value, ins[|ins| - 1]);
    }
  }
}
