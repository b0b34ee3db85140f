/** Nothing runs twice: over any run of successful batches each account's nonces, and the council's
    epochs, are used in order, once each. */
module Replays {
  import opened Digests
  import opened TrieTree
  import opened Records
  import opened Gas
  import opened Governance
  import opened Wire
  import opened Machine
  import opened Traces
  import opened Execution
  import opened Ledger

  datatype Batch = Batch(ctx: BatchContext, txs: seq<Transaction>)

  /** A run of batches, each executed from where the one before it left off: the state reached and
      everything executed on the way; nothing if any batch fails. */
  function RunBatches(rules: Rules, s: State, bs: seq<Batch>): Option<(State, seq<Instruction>)>
    decreases |bs|
  {
    if bs == [] then Some((s, []))
    else
      var last := bs[|bs| - 1];
      match RunBatches(rules, s, bs[..|bs| - 1])
      case None => None
      case Some(before) =>
        match ExecuteBatch(rules, last.ctx, before.0, last.txs)
        case Err(_) => None
        case Ok(r) => Some((r.0, before.1 + r.1.instructions))
  }

  function AllTxs(bs: seq<Batch>): seq<Transaction> {
    if bs == [] then [] else AllTxs(bs[..|bs| - 1]) + bs[|bs| - 1].txs
  }

  // ----- what a transaction contributes

  type Per = Transaction -> seq<nat>

  function Flat(per: Per, txs: seq<Transaction>): seq<nat> {
    if txs == [] then [] else Flat(per, txs[..|txs| - 1]) + per(txs[|txs| - 1])
  }

  lemma {:induction false} FlatAppend(per: Per, a: seq<Transaction>, b: seq<Transaction>)
    ensures Flat(per, a + b) == Flat(per, a) + Flat(per, b)
    decreases |b|
  {
    if b == [] {
      assert a + b == a;
    } else {
      assert (a + b)[..|a + b| - 1] == a + b[..|b| - 1];
      FlatAppend(per, a, b[..|b| - 1]);
    }
  }

  /** Transaction `p`'s own entry comes after those of the transactions before it. */
  lemma {:induction false} FlatAt(per: Per, txs: seq<Transaction>, p: nat, n: nat)
    requires p < |txs| && per(txs[p]) == [n]
    ensures var k := |Flat(per, txs[..p])|; k < |Flat(per, txs)| && Flat(per, txs)[k] == n
    decreases |txs|
  {
    if p < |txs| - 1 {
      assert txs[..|txs| - 1][..p] == txs[..p];
      FlatAt(per, txs[..|txs| - 1], p, n);
    }
  }

  lemma {:induction false} NoTickets(takes: Takes, ins: seq<Instruction>)
    requires forall i :: i in ins ==> takes(i) == None
    ensures Tickets(takes, ins) == []
    decreases |ins|
  {
    if ins != [] {
      NoTickets(takes, ins[..|ins| - 1]);
    }
  }

  /** One instruction that takes a ticket among others that do not. */
  lemma OneTicket(takes: Takes, a: seq<Instruction>, i: Instruction, b: seq<Instruction>)
    requires forall j :: j in a || j in b ==> takes(j) == None
    requires takes(i).Some?
    ensures Tickets(takes, a + [i] + b) == [takes(i).value]
  {
    NoTickets(takes, a);
    NoTickets(takes, b);
    assert [i][..0] == [];
    TicketsAppend(takes, a, [i]);
    TicketsAppend(takes, a + [i], b);
  }

  function NonceTakes(x: Bytes32): Takes {
    (i: Instruction) => if i.ConsumeNonce? && i.account == x then Some(i.expected) else None
  }

  function EpochTakes(): Takes {
    (i: Instruction) => if i.VerifyCouncil? then Some(i.epoch) else None
  }

  /** The nonces an address's transactions carry. */
  function NonceOf(x: Bytes32): Per {
    (t: Transaction) => if t.sender == x then [t.nonce] else []
  }

  /** The epochs governance payloads are signed for. */
  function EpochOf(): Per {
    (t: Transaction) => if t.payload.Governance? then [t.payload.epoch] else []
  }

  predicate Plain(i: Instruction) {
    !i.ConsumeNonce? && !i.VerifyCouncil?
  }

  /** A governance payload opens with its council check; nothing else in a payload takes a ticket. */
  lemma PayloadShape(p: Payload, sender: Bytes32)
    requires CompilePayload(p, sender).Ok?
    ensures var ins := CompilePayload(p, sender).value;
            if p.Governance? then
              && ins == [VerifyCouncil(p.epoch, SigningDigest(p.update, p.epoch), p.signatures, GuardianMayApply(p.update))]
                        + [UpdateInstruction(p.update)]
              && Plain(UpdateInstruction(p.update))
            else forall i :: i in ins ==> Plain(i)
  {
    if p.DistributeFees? {
      ShareCreditsAreCredits(p.asset, SharesOf(p.split.beneficiaries, p.amount).value);
    }
  }

  /** The instructions in front of a payload: the nonce check and plain ones. */
  function BeforeNonce(t: Transaction): seq<Instruction> {
    if t.authenticator.Keyless? then [VerifyJwk(t.authenticator.sig.issHash, t.authenticator.sig.jwkHash)] else []
  }

  function AfterNonce(t: Transaction, ctx: BatchContext, charge: FeeCharge): seq<Instruction> {
    [VerifyGasAsset(t.feeAsset, t.feeRate, t.feeIntrinsicGas),
     ChargeBaseFee(ctx.timestamp, ctx.baseFee, charge.gasUsed),
     Debit(t.sender, t.feeAsset, charge.hold)]
  }

  lemma PrologueShape(t: Transaction, ctx: BatchContext, charge: FeeCharge)
    ensures Prologue(t, ctx, charge) == BeforeNonce(t) + [ConsumeNonce(t.sender, t.nonce)] + AfterNonce(t, ctx, charge)
    ensures forall i :: i in BeforeNonce(t) || i in AfterNonce(t, ctx, charge) || i in Epilogue(t, ctx, charge) ==> Plain(i)
  {
  }

  /** Everything a compiled transaction does after its nonce check. */
  function Rest(t: Transaction, ctx: BatchContext): seq<Instruction>
    requires ChargeAndPayload(t, ctx).Ok?
  {
    var charge, payload := ChargeAndPayload(t, ctx).value.0, ChargeAndPayload(t, ctx).value.1;
    AfterNonce(t, ctx, charge) + payload + Epilogue(t, ctx, charge)
  }

  lemma RestTakesNoNonce(t: Transaction, ctx: BatchContext)
    requires ChargeAndPayload(t, ctx).Ok?
    ensures forall i :: i in BeforeNonce(t) || i in Rest(t, ctx) ==> !i.ConsumeNonce?
  {
    var charge, payload := ChargeAndPayload(t, ctx).value.0, ChargeAndPayload(t, ctx).value.1;
    PrologueShape(t, ctx, charge);
    PayloadShape(t.payload, t.sender);
    assert forall i :: i in payload ==> !i.ConsumeNonce?;
  }

  lemma CompiledAroundNonce(rules: Rules, t: Transaction, ctx: BatchContext)
    requires Compile(rules, t, ctx).Ok?
    ensures ChargeAndPayload(t, ctx).Ok?
    ensures Compile(rules, t, ctx).value == BeforeNonce(t) + [ConsumeNonce(t.sender, t.nonce)] + Rest(t, ctx)
  {
    var charge, payload := ChargeAndPayload(t, ctx).value.0, ChargeAndPayload(t, ctx).value.1;
    PrologueShape(t, ctx, charge);
    Regroup(BeforeNonce(t), [ConsumeNonce(t.sender, t.nonce)], AfterNonce(t, ctx, charge), payload, Epilogue(t, ctx, charge));
  }

  lemma NonceTicket(before: seq<Instruction>, sender: Bytes32, nonce: nat, rest: seq<Instruction>, x: Bytes32)
    requires forall i :: i in before || i in rest ==> !i.ConsumeNonce?
    ensures Tickets(NonceTakes(x), before + [ConsumeNonce(sender, nonce)] + rest) == if sender == x then [nonce] else []
  {
    var i := ConsumeNonce(sender, nonce);
    if sender == x {
      OneTicket(NonceTakes(x), before, i, rest);
    } else {
      NoTickets(NonceTakes(x), before + [i] + rest);
    }
  }

  /** A compiled transaction checks exactly one nonce, its own, against its own sender. */
  lemma CompiledNonce(rules: Rules, t: Transaction, ctx: BatchContext, x: Bytes32)
    requires Compile(rules, t, ctx).Ok?
    ensures Tickets(NonceTakes(x), Compile(rules, t, ctx).value) == NonceOf(x)(t)
  {
    CompiledAroundNonce(rules, t, ctx);
    RestTakesNoNonce(t, ctx);
    NonceTicket(BeforeNonce(t), t.sender, t.nonce, Rest(t, ctx), x);
  }

  lemma EpochTicket(before: seq<Instruction>, check: Instruction, write: Instruction, after: seq<Instruction>)
    requires check.VerifyCouncil? && !write.VerifyCouncil? && forall i :: i in before || i in after ==> !i.VerifyCouncil?
    ensures Tickets(EpochTakes(), before + ([check] + [write]) + after) == [check.epoch]
    ensures check in before + ([check] + [write]) + after
  {
    assert before + ([check] + [write]) + after == before + [check] + ([write] + after);
    OneTicket(EpochTakes(), before, check, [write] + after);
    assert (before + ([check] + [write]) + after)[|before|] == check;
  }

  lemma NoEpochTicket(before: seq<Instruction>, payload: seq<Instruction>, after: seq<Instruction>)
    requires forall i :: i in before || i in payload || i in after ==> !i.VerifyCouncil?
    ensures Tickets(EpochTakes(), before + payload + after) == []
  {
    NoTickets(EpochTakes(), before + payload + after);
  }

  lemma EpochParts(t: Transaction, ctx: BatchContext)
    requires ChargeAndPayload(t, ctx).Ok?
    ensures var charge, payload := ChargeAndPayload(t, ctx).value.0, ChargeAndPayload(t, ctx).value.1;
            && (forall i :: i in Prologue(t, ctx, charge) || i in Epilogue(t, ctx, charge) ==> !i.VerifyCouncil?)
            && (if t.payload.Governance? then
                  payload == [CouncilCheck(t.payload)] + [UpdateInstruction(t.payload.update)] && !UpdateInstruction(t.payload.update).VerifyCouncil?
                else forall i :: i in payload ==> !i.VerifyCouncil?)
  {
    PrologueShape(t, ctx, ChargeAndPayload(t, ctx).value.0);
    PayloadShape(t.payload, t.sender);
  }

  /** A compiled transaction checks the council once if it is governance, and never otherwise. */
  lemma CompiledEpoch(rules: Rules, t: Transaction, ctx: BatchContext)
    requires Compile(rules, t, ctx).Ok?
    ensures Tickets(EpochTakes(), Compile(rules, t, ctx).value) == EpochOf()(t)
    ensures t.payload.Governance? ==> CouncilCheck(t.payload) in Compile(rules, t, ctx).value
  {
    var charge, payload := ChargeAndPayload(t, ctx).value.0, ChargeAndPayload(t, ctx).value.1;
    EpochParts(t, ctx);
    if t.payload.Governance? {
      EpochTicket(Prologue(t, ctx, charge), CouncilCheck(t.payload), UpdateInstruction(t.payload.update), Epilogue(t, ctx, charge));
    } else {
      NoEpochTicket(Prologue(t, ctx, charge), payload, Epilogue(t, ctx, charge));
    }
  }

  /** The check a governance payload compiles to: over its own update and epoch. */
  function CouncilCheck(p: Payload): Instruction
    requires p.Governance?
  {
    VerifyCouncil(p.epoch, SigningDigest(p.update, p.epoch), p.signatures, GuardianMayApply(p.update))
  }

  lemma {:induction false} ProgramTickets<E>(compile: Compiler<E>, takes: Takes, per: Per, txs: seq<Transaction>)
    requires Program(compile, txs).Ok?
    requires forall t: Transaction :: compile(t).Ok? ==> Tickets(takes, compile(t).value) == per(t)
    ensures Tickets(takes, Program(compile, txs).value) == Flat(per, txs)
    decreases |txs|
  {
    if txs != [] {
      var n := |txs| - 1;
      ProgramTickets(compile, takes, per, txs[..n]);
      TicketsAppend(takes, Program(compile, txs[..n]).value, compile(txs[n]).value);
    }
  }

  // ----- runs

  lemma {:induction false} ReplayAppend(step: Step, s: State, a: seq<Instruction>, b: seq<Instruction>)
    requires Replay(step, s, a).Ok?
    ensures Replay(step, s, a + b) == Replay(step, Replay(step, s, a).value, b)
    decreases |b|
  {
    if b == [] {
      assert a + b == a;
    } else {
      assert (a + b)[..|a + b| - 1] == a + b[..|b| - 1];
      ReplayAppend(step, s, a, b[..|b| - 1]);
    }
  }

  ghost predicate TakenPer(rules: Rules, takes: Takes, per: Per) {
    forall t: Transaction, ctx: BatchContext :: Compile(rules, t, ctx).Ok? ==> Tickets(takes, Compile(rules, t, ctx).value) == per(t)
  }

  /** A run is one long execution, and its tickets are its transactions' in order. */
  lemma {:induction false} RunIsReplay(rules: Rules, s: State, bs: seq<Batch>, takes: Takes, per: Per)
    requires RunBatches(rules, s, bs).Some? && TakenPer(rules, takes, per)
    ensures var (t, ins) := RunBatches(rules, s, bs).value;
            Replay(StepOf(rules.crypto), s, ins) == Ok(t) && Tickets(takes, ins) == Flat(per, AllTxs(bs))
    decreases |bs|
  {
    if bs != [] {
      var front, last := bs[..|bs| - 1], bs[|bs| - 1];
      RunIsReplay(rules, s, front, takes, per);
      BatchTickets(rules, RunBatches(rules, s, front).value.0, last, takes, per);
      var before := RunBatches(rules, s, front).value;
      var ins := ExecuteBatch(rules, last.ctx, before.0, last.txs).value.1.instructions;
      ReplayAppend(StepOf(rules.crypto), s, before.1, ins);
      TicketsAppend(takes, before.1, ins);
      FlatAppend(per, AllTxs(front), last.txs);
    }
  }

  lemma BatchTickets(rules: Rules, s: State, b: Batch, takes: Takes, per: Per)
    requires ExecuteBatch(rules, b.ctx, s, b.txs).Ok? && TakenPer(rules, takes, per)
    ensures var r := ExecuteBatch(rules, b.ctx, s, b.txs).value;
            && Replay(StepOf(rules.crypto), s, r.1.instructions) == Ok(r.0)
            && Tickets(takes, r.1.instructions) == Flat(per, b.txs)
  {
    var compile, step := CompilerOf(rules, b.ctx), StepOf(rules.crypto);
    BatchIsHonest(compile, step, s, b.txs);
    forall t: Transaction | compile(t).Ok? ensures Tickets(takes, compile(t).value) == per(t) {
      assert Compile(rules, t, b.ctx).Ok?;
    }
    ProgramTickets(compile, takes, per, b.txs);
  }

  /** The keys the run's steps touch are kept apart in the trie. */
  ghost predicate Apart(rules: Rules, ins: seq<Instruction>, slots: set<Slot>) {
    Separates(rules.crypto, slots) && Touches(ins, slots) && AssetsFit(ins)
  }

  /** In every run of successful batches, the nonces of one address's transactions are, in order,
      its first nonce, the next, and so on; its nonce rises by one per transaction and no more. */
  lemma NoncesInOrder(rules: Rules, s: State, bs: seq<Batch>, slots: set<Slot>, x: Bytes32)
    requires RunBatches(rules, s, bs).Some? && Apart(rules, RunBatches(rules, s, bs).value.1, slots) && AccountSlot(x) in slots
    ensures var nonces, first := Flat(NonceOf(x), AllTxs(bs)), AccountAt(rules.crypto, s, x).nonce;
            && Consecutive(nonces, first)
            && AccountAt(rules.crypto, RunBatches(rules, s, bs).value.0, x).nonce == first + |nonces|
  {
    var ins := RunBatches(rules, s, bs).value.1;
    NonceTaken(rules, x);
    RunIsReplay(rules, s, bs, NonceTakes(x), NonceOf(x));
    NonceServed(rules.crypto, slots, ins, x);
    TicketsConsecutive(StepOf(rules.crypto), NonceCounter(rules.crypto, x), NonceTakes(x), s, ins);
  }

  function NonceCounter(crypto: Crypto, x: Bytes32): State -> nat {
    (t: State) => AccountAt(crypto, t, x).nonce
  }

  function EpochCounter(crypto: Crypto): State -> nat {
    (t: State) => if CouncilAt(crypto, t).Some? then CouncilAt(crypto, t).value.epoch else 0
  }

  lemma NonceTaken(rules: Rules, x: Bytes32)
    ensures TakenPer(rules, NonceTakes(x), NonceOf(x))
  {
    forall t: Transaction, ctx: BatchContext | Compile(rules, t, ctx).Ok?
      ensures Tickets(NonceTakes(x), Compile(rules, t, ctx).value) == NonceOf(x)(t)
    {
      CompiledNonce(rules, t, ctx, x);
    }
  }

  lemma EpochTaken(rules: Rules)
    ensures TakenPer(rules, EpochTakes(), EpochOf())
  {
    forall t: Transaction, ctx: BatchContext | Compile(rules, t, ctx).Ok?
      ensures Tickets(EpochTakes(), Compile(rules, t, ctx).value) == EpochOf()(t)
    {
      CompiledEpoch(rules, t, ctx);
    }
  }

  lemma NonceServed(crypto: Crypto, slots: set<Slot>, ins: seq<Instruction>, x: Bytes32)
    requires Separates(crypto, slots) && Touches(ins, slots) && AssetsFit(ins) && AccountSlot(x) in slots
    ensures Serves(StepOf(crypto), NonceCounter(crypto, x), NonceTakes(x), ins)
  {
    forall t: State, i: Instruction | i in ins && StepOf(crypto)(t, i).Ok?
      ensures Served(StepOf(crypto), NonceCounter(crypto, x), NonceTakes(x), t, i)
    {
      StepOnAccounts(crypto, slots, t, i, x, 0);
    }
  }

  lemma EpochServed(crypto: Crypto, slots: set<Slot>, ins: seq<Instruction>)
    requires Separates(crypto, slots) && Touches(ins, slots) && CouncilSlot in slots
    ensures Serves(StepOf(crypto), EpochCounter(crypto), EpochTakes(), ins)
  {
    forall t: State, i: Instruction | i in ins && StepOf(crypto)(t, i).Ok?
      ensures Served(StepOf(crypto), EpochCounter(crypto), EpochTakes(), t, i)
    {
      match i
      case VerifyCouncil(epoch, digest, sigs, guardian) => StepOnOwnCouncil(crypto, t, epoch, digest, sigs, guardian);
      case _ => CouncilUntouched(crypto, slots, t, i);
    }
  }

  /** In every run of successful batches, governance payloads carry consecutive epochs. */
  lemma EpochsInOrder(rules: Rules, s: State, bs: seq<Batch>, slots: set<Slot>)
    requires RunBatches(rules, s, bs).Some? && Apart(rules, RunBatches(rules, s, bs).value.1, slots) && CouncilSlot in slots
    ensures Consecutive(Flat(EpochOf(), AllTxs(bs)), EpochCounter(rules.crypto)(s))
  {
    var ins := RunBatches(rules, s, bs).value.1;
    EpochTaken(rules);
    RunIsReplay(rules, s, bs, EpochTakes(), EpochOf());
    EpochServed(rules.crypto, slots, ins);
    TicketsConsecutive(StepOf(rules.crypto), EpochCounter(rules.crypto), EpochTakes(), s, ins);
  }

  /** Consecutive entries are told apart by position. */
  lemma EntriesDiffer(per: Per, txs: seq<Transaction>, from: nat, p: nat, q: nat, m: nat, n: nat)
    requires Consecutive(Flat(per, txs), from) && p < q < |txs| && per(txs[p]) == [m] && per(txs[q]) == [n]
    ensures m < n
  {
    FlatAt(per, txs, p, m);
    FlatAt(per, txs, q, n);
    FlatAt(per, txs[..q], p, m);
    assert txs[..q][..p] == txs[..p];
  }

  /** No transaction replays: across every run, two transactions of one sender carry different
      nonces, the later the larger. */
  lemma NoReplay(rules: Rules, s: State, bs: seq<Batch>, slots: set<Slot>, p: nat, q: nat)
    requires RunBatches(rules, s, bs).Some? && Apart(rules, RunBatches(rules, s, bs).value.1, slots)
    requires p < q < |AllTxs(bs)| && AllTxs(bs)[p].sender == AllTxs(bs)[q].sender
    requires AccountSlot(AllTxs(bs)[p].sender) in slots
    ensures AllTxs(bs)[p].nonce < AllTxs(bs)[q].nonce
  {
    var txs := AllTxs(bs);
    var x := txs[p].sender;
    NoncesInOrder(rules, s, bs, slots, x);
    EntriesDiffer(NonceOf(x), txs, AccountAt(rules.crypto, s, x).nonce, p, q, txs[p].nonce, txs[q].nonce);
  }

  /** No council epoch admits two payloads. */
  lemma EpochOnce(rules: Rules, s: State, bs: seq<Batch>, slots: set<Slot>, p: nat, q: nat)
    requires RunBatches(rules, s, bs).Some? && Apart(rules, RunBatches(rules, s, bs).value.1, slots) && CouncilSlot in slots
    requires p < q < |AllTxs(bs)| && AllTxs(bs)[p].payload.Governance? && AllTxs(bs)[q].payload.Governance?
    ensures AllTxs(bs)[p].payload.epoch < AllTxs(bs)[q].payload.epoch
  {
    var txs := AllTxs(bs);
    EpochsInOrder(rules, s, bs, slots);
    EntriesDiffer(EpochOf(), txs, EpochCounter(rules.crypto)(s), p, q, txs[p].payload.epoch, txs[q].payload.epoch);
  }

  // ----- quorum

  /** The seats of `c` that signed a check are as many as it needs. */
  ghost predicate Quorate(ed: Ed25519, c: Council, i: Instruction)
    requires i.VerifyCouncil?
  {
    0 < Required(c, i.guardian) <= |SignedSeats(ed, c, i.digest, i.signatures)|
  }

  /** The same council, at another epoch. */
  ghost predicate SameCouncil(a: Option<Council>, b: Option<Council>) {
    if a.Some? && b.Some? then a.value == b.value.(epoch := a.value.epoch) else a == b
  }

  lemma QuorumAtAnyEpoch(ed: Ed25519, c: Council, d: Council, i: Instruction)
    requires i.VerifyCouncil? && c == d.(epoch := c.epoch)
    requires VerifyCouncilSignatures(ed, d, i.digest, i.signatures, i.guardian).Ok?
    ensures Quorate(ed, c, i)
  {
    CouncilQuorum(ed, d, i.digest, i.signatures, i.guardian);
    assert SignedSeats(ed, c, i.digest, i.signatures) == SignedSeats(ed, d, i.digest, i.signatures);
  }

  lemma CouncilStepQuorate(crypto: Crypto, slots: set<Slot>, s: State, t: State, i: Instruction)
    requires Separates(crypto, slots) && SlotOf(i) in slots && CouncilSlot in slots
    requires SameCouncil(CouncilAt(crypto, s), CouncilAt(crypto, t)) && Apply(crypto, t, i).Ok?
    ensures SameCouncil(CouncilAt(crypto, s), CouncilAt(crypto, Apply(crypto, t, i).value))
    ensures i.VerifyCouncil? ==> CouncilAt(crypto, s).Some? && Quorate(crypto.ed, CouncilAt(crypto, s).value, i)
  {
    match i
    case VerifyCouncil(epoch, digest, sigs, guardian) =>
      StepOnOwnCouncil(crypto, t, epoch, digest, sigs, guardian);
      QuorumAtAnyEpoch(crypto.ed, CouncilAt(crypto, s).value, CouncilAt(crypto, t).value, i);
    case _ => CouncilUntouched(crypto, slots, t, i);
  }

  /** The council never changes its members, and every check it ever passed was quorate. */
  lemma {:induction false} ChecksQuorate(crypto: Crypto, slots: set<Slot>, s: State, ins: seq<Instruction>)
    requires Separates(crypto, slots) && Touches(ins, slots) && CouncilSlot in slots
    requires Replay(StepOf(crypto), s, ins).Ok?
    ensures SameCouncil(CouncilAt(crypto, s), CouncilAt(crypto, Replay(StepOf(crypto), s, ins).value))
    ensures forall i :: i in ins && i.VerifyCouncil? ==> CouncilAt(crypto, s).Some? && Quorate(crypto.ed, CouncilAt(crypto, s).value, i)
    decreases |ins|
  {
    if ins != [] {
      var front, last := ins[..|ins| - 1], ins[|ins| - 1];
      ChecksQuorate(crypto, slots, s, front);
      var t := Replay(StepOf(crypto), s, front).value;
      assert StepOf(crypto)(t, last) == Apply(crypto, t, last);
      CouncilStepQuorate(crypto, slots, s, t, last);
      assert forall i :: i in ins ==> i in front || i == last;
    }
  }

  lemma {:induction false} RunHasCheck(rules: Rules, s: State, bs: seq<Batch>, t: Transaction)
    requires RunBatches(rules, s, bs).Some? && t in AllTxs(bs) && t.payload.Governance?
    ensures CouncilCheck(t.payload) in RunBatches(rules, s, bs).value.1
    decreases |bs|
  {
    var front, last := bs[..|bs| - 1], bs[|bs| - 1];
    if t in last.txs {
      var compile := CompilerOf(rules, last.ctx);
      BatchIsHonest(compile, StepOf(rules.crypto), RunBatches(rules, s, front).value.0, last.txs);
      if compile(t).Ok? {
        CompiledEpoch(rules, t, last.ctx);
      }
      ProgramHas(compile, last.txs, t, CouncilCheck(t.payload));
    } else {
      RunHasCheck(rules, s, front, t);
    }
  }

  /** Every governance payload of every run was signed, over its own update and epoch, from at
      least the required number of distinct seats of the genesis council. */
  lemma GovernanceQuorate(rules: Rules, s: State, bs: seq<Batch>, slots: set<Slot>, t: Transaction)
    requires RunBatches(rules, s, bs).Some? && Apart(rules, RunBatches(rules, s, bs).value.1, slots) && CouncilSlot in slots
    requires t in AllTxs(bs) && t.payload.Governance?
    ensures CouncilAt(rules.crypto, s).Some?
    ensures Quorate(rules.crypto.ed, CouncilAt(rules.crypto, s).value, CouncilCheck(t.payload))
  {
    EpochTaken(rules);
    RunIsReplay(rules, s, bs, EpochTakes(), EpochOf());
    ChecksQuorate(rules.crypto, slots, s, RunBatches(rules, s, bs).value.1);
    RunHasCheck(rules, s, bs, t);
  }
}
