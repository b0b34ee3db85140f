/** Producing blocks: cutting a prefix of the queue to the fee window, sealing it, asserting it. */
module Sequencers {
  import opened Digests
  import opened TrieTree
  import opened MerkleTries
  import opened Records
  import opened Gas
  import opened Wire
  import opened Machine
  import opened Traces
  import opened Execution
  import opened Ledger
  import opened FeeMarkets
  import opened Mempools
  import opened Assertions
  import opened BatchTrees

  const MAX_BATCH_BYTES: nat := 48 * 1024

  // ----- sealing

  type Exec = seq<Transaction> -> Result<(State, Trace), BatchError<CompileError>>

  datatype Sealing =
    | Nothing
    | Sealed(txs: seq<Transaction>, post: State, trace: Trace)
    | Broken(index: nat, step: nat, failure: StepError)

  function RemoveAt(txs: seq<Transaction>, i: nat): seq<Transaction>
    requires i < |txs|
  {
    txs[..i] + txs[i + 1..]
  }

  /** Executes a batch, dropping a transaction that does not compile and retrying without it; any
      other failure is reported. */
  function Seal(exec: Exec, txs: seq<Transaction>): Sealing
    decreases |txs|
  {
    match exec(txs)
    case Ok(r) => Sealed(txs, r.0, r.1)
    case Err(StepFailed(index, step, failure)) => Broken(index, step, failure)
    case Err(CompileFailed(index, _)) =>
      if index < |txs| && |txs| > 1 then Seal(exec, RemoveAt(txs, index)) else Nothing
  }

  function Runner(compile: Compiler<CompileError>, step: Step, s: State): Exec {
    (txs: seq<Transaction>) => RunBatch(compile, step, s, txs)
  }

  function ExecOf(rules: Rules, ctx: BatchContext, s: State): Exec {
    Runner(CompilerOf(rules, ctx), StepOf(rules.crypto), s)
  }

  /** A failed execution names a transaction of the batch, and one that fails to compile does. */
  lemma {:induction false} FailureNames<E>(compile: Compiler<E>, step: Step, s: State, txs: seq<Transaction>)
    requires RunBatch(compile, step, s, txs).Err? && RunBatch(compile, step, s, txs).error.CompileFailed?
    ensures var i := RunBatch(compile, step, s, txs).error.index; i < |txs| && compile(txs[i]).Err?
    decreases |txs|
  {
    var n := |txs| - 1;
    if txs != [] {
      if RunBatch(compile, step, s, txs[..n]).Err? {
        FailureNames(compile, step, s, txs[..n]);
      } else if compile(txs[n]).Ok? {
        StepsNeverBlameCompiler<E>(step, RunBatch(compile, step, s, txs[..n]).value.0,
                                   MarkStart(RunBatch(compile, step, s, txs[..n]).value.1), compile(txs[n]).value, n);
      }
    }
  }

  lemma {:induction false} StepsNeverBlameCompiler<E>(step: Step, s: State, tr: Trace, ins: seq<Instruction>, index: nat)
    ensures Steps<E>(step, s, tr, ins, index).Err? ==>
              Steps<E>(step, s, tr, ins, index).error.StepFailed? && Steps<E>(step, s, tr, ins, index).error.index == index
    decreases |ins|
  {
    if ins != [] {
      StepsNeverBlameCompiler<E>(step, s, tr, ins[..|ins| - 1], index);
    }
  }

  /** A failed step ends the execution where it is: nothing after its transaction matters. */
  lemma {:induction false} StepFailureEnds<E>(compile: Compiler<E>, step: Step, s: State, txs: seq<Transaction>)
    requires RunBatch(compile, step, s, txs).Err? && RunBatch(compile, step, s, txs).error.StepFailed?
    ensures var i := RunBatch(compile, step, s, txs).error.index;
            && i < |txs| && (forall t :: t in txs[..i + 1] ==> compile(t).Ok?)
            && RunBatch(compile, step, s, txs[..i + 1]) == RunBatch(compile, step, s, txs)
    decreases |txs|
  {
    var n := |txs| - 1;
    if RunBatch(compile, step, s, txs[..n]).Err? {
      StepFailureEnds(compile, step, s, txs[..n]);
      var i := RunBatch(compile, step, s, txs).error.index;
      assert txs[..n][..i + 1] == txs[..i + 1];
    } else {
      var r := RunBatch(compile, step, s, txs[..n]).value;
      StepsNeverBlameCompiler<E>(step, r.0, MarkStart(r.1), compile(txs[n]).value, n);
      ExecutedCompiles(compile, step, s, txs[..n]);
      assert txs[..n + 1] == txs && forall t :: t in txs ==> t in txs[..n] || t == txs[n];
    }
  }

  lemma {:induction false} ExecutedCompiles<E>(compile: Compiler<E>, step: Step, s: State, txs: seq<Transaction>)
    requires RunBatch(compile, step, s, txs).Ok?
    ensures forall t :: t in txs ==> compile(t).Ok?
    decreases |txs|
  {
    if txs != [] {
      ExecutedCompiles(compile, step, s, txs[..|txs| - 1]);
      assert forall t :: t in txs ==> t in txs[..|txs| - 1] || t == txs[|txs| - 1];
    }
  }

  function Filter(keep: Transaction -> bool, txs: seq<Transaction>): seq<Transaction> {
    if txs == [] then []
    else Filter(keep, txs[..|txs| - 1]) + (if keep(txs[|txs| - 1]) then [txs[|txs| - 1]] else [])
  }

  lemma {:induction false} FilterAll(keep: Transaction -> bool, txs: seq<Transaction>)
    requires forall t :: t in txs ==> keep(t)
    ensures Filter(keep, txs) == txs
    decreases |txs|
  {
    if txs != [] {
      var front, last := txs[..|txs| - 1], txs[|txs| - 1];
      FilterAll(keep, front);
      assert keep(last) && txs == front + [last];
    }
  }

  lemma {:induction false} FilterDrops(keep: Transaction -> bool, txs: seq<Transaction>, i: nat)
    requires i < |txs| && !keep(txs[i])
    ensures Filter(keep, RemoveAt(txs, i)) == Filter(keep, txs)
    decreases |txs|
  {
    var n := |txs| - 1;
    if i == n {
      assert RemoveAt(txs, i) == txs[..n];
    } else {
      FilterDrops(keep, txs[..n], i);
      assert RemoveAt(txs, i)[..n - 1] == RemoveAt(txs[..n], i);
      assert RemoveAt(txs, i)[n - 1] == txs[n];
    }
  }

  lemma {:induction false} FilterAppend(keep: Transaction -> bool, a: seq<Transaction>, b: seq<Transaction>)
    ensures Filter(keep, a + b) == Filter(keep, a) + Filter(keep, b)
    decreases |b|
  {
    if b == [] {
      assert a + b == a;
    } else {
      FilterAppend(keep, a, b[..|b| - 1]);
      assert (a + b)[..|a + b| - 1] == a + b[..|b| - 1];
    }
  }

  function Compiling(compile: Compiler<CompileError>): Transaction -> bool {
    (t: Transaction) => compile(t).Ok?
  }

  function CompilesIn(rules: Rules, ctx: BatchContext): Transaction -> bool {
    Compiling(CompilerOf(rules, ctx))
  }

  /** Sealing came to what executing `kept` comes to: a block of it, or its failed step. */
  ghost predicate SealsAs(r: Sealing, kept: seq<Transaction>, run: Result<(State, Trace), BatchError<CompileError>>) {
    match run
    case Ok(x) => r == Sealed(kept, x.0, x.1)
    case Err(e) => e.StepFailed? && r == Broken(e.index, e.step, e.failure)
  }

  lemma FailureAmongKept(compile: Compiler<CompileError>, step: Step, s: State, txs: seq<Transaction>)
    requires RunBatch(compile, step, s, txs).Err? && RunBatch(compile, step, s, txs).error.StepFailed?
    ensures Filter(Compiling(compile), txs) != []
    ensures RunBatch(compile, step, s, Filter(Compiling(compile), txs)) == RunBatch(compile, step, s, txs)
  {
    StepFailureEnds(compile, step, s, txs);
    var i := RunBatch(compile, step, s, txs).error.index;
    var front, kept := txs[..i + 1], Filter(Compiling(compile), txs);
    assert txs == front + txs[i + 1..];
    FilterAll(Compiling(compile), front);
    FilterAppend(Compiling(compile), front, txs[i + 1..]);
    assert kept[..i + 1] == front;
    FailurePropagates(compile, step, s, kept, i + 1);
  }

  /** Sealing a batch is executing it without exactly the transactions that do not compile: the block
      is what is left, or the failure is the failure of what is left; and there is no block only when
      nothing is left. */
  lemma {:induction false} SealDropsUncompilable(compile: Compiler<CompileError>, step: Step, s: State, txs: seq<Transaction>)
    requires txs != []
    ensures var r, kept := Seal(Runner(compile, step, s), txs), Filter(Compiling(compile), txs);
            if kept == [] then r == Nothing else SealsAs(r, kept, RunBatch(compile, step, s, kept))
    decreases |txs|
  {
    var run := RunBatch(compile, step, s, txs);
    if run.Ok? {
      ExecutedCompiles(compile, step, s, txs);
      FilterAll(Compiling(compile), txs);
    } else if run.error.StepFailed? {
      FailureAmongKept(compile, step, s, txs);
    } else {
      FailureNames(compile, step, s, txs);
      FilterDrops(Compiling(compile), txs, run.error.index);
      if |txs| > 1 {
        SealDropsUncompilable(compile, step, s, RemoveAt(txs, run.error.index));
      }
    }
  }

  lemma {:induction false} PriceWithout(price: Transaction -> nat, txs: seq<Transaction>, i: nat)
    requires i < |txs|
    ensures PriceSum(price, RemoveAt(txs, i)) + price(txs[i]) == PriceSum(price, txs)
    decreases |txs|
  {
    var n := |txs| - 1;
    if i == n {
      assert RemoveAt(txs, i) == txs[..n];
    } else {
      PriceWithout(price, txs[..n], i);
      assert RemoveAt(txs, i)[..n - 1] == RemoveAt(txs[..n], i);
      assert RemoveAt(txs, i)[n - 1] == txs[n];
    }
  }

  /** If every batch within a gas limit, made of acceptable transactions, executes without a fault,
      then so does sealing one, retries included. */
  lemma {:induction false} SealFaultless(exec: Exec, price: Transaction -> nat, limit: nat, ok: Transaction -> bool,
                                        fault: StepError -> bool, txs: seq<Transaction>)
    requires forall b :: PriceSum(price, b) <= limit && (forall t :: t in b ==> ok(t)) ==> Faultless(exec(b), fault)
    requires PriceSum(price, txs) <= limit && forall t :: t in txs ==> ok(t)
    ensures Seal(exec, txs).Broken? ==> !fault(Seal(exec, txs).failure)
    decreases |txs|
  {
    assert Faultless(exec(txs), fault);
    var r := exec(txs);
    if r.Err? && r.error.CompileFailed? && r.error.index < |txs| && |txs| > 1 {
      PriceWithout(price, txs, r.error.index);
      SealFaultless(exec, price, limit, ok, fault, RemoveAt(txs, r.error.index));
    }
  }

  // ----- the fee window a block is cut to

  /** The market as the node reads it: absent or unreadable, the genesis market. */
  function MarketOrGenesis(crypto: Crypto, s: State): FeeMarket {
    match MarketAt(crypto, s)
    case Ok(m) => m
    case Err(_) => GenesisMarket(DEFAULT_BASE_FEE_FLOOR, DEFAULT_GAS_TARGET)
  }

  /** The window at a timestamp, or the market as it stands if it cannot be rolled. */
  function WindowAt(m: FeeMarket, timestamp: nat): FeeMarket {
    match At(m, timestamp)
    case Ok(w) => w
    case Err(_) => m
  }

  function ContextAt(crypto: Crypto, s: State, timestamp: nat, recipient: Bytes32): BatchContext {
    BatchContext(timestamp, WindowAt(MarketOrGenesis(crypto, s), timestamp).baseFee, recipient)
  }

  function CapOf(limits: map<nat, nat>, w: FeeMarket): nat -> nat {
    (asset: nat) => if asset in limits then WindowLimit(w) / 1000 * limits[asset] else WindowLimit(w)
  }

  lemma PricePositive(t: Transaction)
    ensures PriceOf(t) > 0
  {
  }

  lemma BatchPricePositive(txs: seq<Transaction>)
    requires txs != []
    ensures PriceSum(PriceOf, txs) > 0
  {
    PricePositive(txs[|txs| - 1]);
  }

  /** No SetFeeMarket update, and only slots kept apart. */
  ghost predicate Ordinary(rules: Rules, ctx: BatchContext, slots: set<Slot>, t: Transaction) {
    !SetsMarket(t) && (Compile(rules, t, ctx).Ok? ==> Touches(Compile(rules, t, ctx).value, slots))
  }

  /** An ordinary batch within the budget of its timestamp. */
  ghost predicate FeesFit(rules: Rules, s: State, timestamp: nat, recipient: Bytes32, slots: set<Slot>, txs: seq<Transaction>) {
    && (forall t :: t in txs ==> Ordinary(rules, ContextAt(rules.crypto, s, timestamp, recipient), slots, t))
    && PriceSum(PriceOf, txs) <= Budget(WindowAt(MarketOrGenesis(rules.crypto, s), timestamp))
  }

  /** Sealed in the context of its timestamp, the batch never fails a base-fee charge. */
  ghost predicate FeeFaultless(rules: Rules, s: State, timestamp: nat, recipient: Bytes32, txs: seq<Transaction>) {
    var r := Seal(ExecOf(rules, ContextAt(rules.crypto, s, timestamp, recipient), s), txs);
    r.Broken? ==> !FeeFault(r.failure)
  }

  /** Block cutting respects the fee market: a batch cut to the budget `produce` computes, executed
      in the context `produce` builds, never fails a base-fee charge, even after transactions that
      stopped compiling are dropped; provided the block's timestamp is not behind the market's window,
      which `Sequencer` keeps from its first block on, and the next base fee does not overflow. */
  lemma ProducedBlocksNeverOverrun(rules: Rules, s: State, timestamp: nat, recipient: Bytes32, slots: set<Slot>, txs: seq<Transaction>)
    requires Separates(rules.crypto, slots) && FeeMarketSlot in slots && timestamp <= U64_MAX
    requires MarketAt(rules.crypto, s).Ok? && MarketAt(rules.crypto, s).value.windowTs <= timestamp
    requires At(MarketAt(rules.crypto, s).value, timestamp) != Err(GasOverflow)
    requires FeesFit(rules, s, timestamp, recipient, slots, txs)
    ensures FeeFaultless(rules, s, timestamp, recipient, txs)
  {
    var ctx := ContextAt(rules.crypto, s, timestamp, recipient);
    var w := WindowAt(MarketOrGenesis(rules.crypto, s), timestamp);
    RollsUnlessOverflow(MarketAt(rules.crypto, s).value, timestamp);
    var exec := ExecOf(rules, ctx, s);
    ghost var ok := (t: Transaction) => Ordinary(rules, ctx, slots, t);
    forall b | PriceSum(PriceOf, b) <= Budget(w) && (forall t :: t in b ==> ok(t)) ensures Faultless(exec(b), FeeFault) {
      BatchWithinWindow(rules, ctx, s, b, slots, w);
    }
    SealFaultless(exec, PriceOf, Budget(w), ok, FeeFault, txs);
  }

  /** Rolling fails on a timestamp behind the window or on overflow, and on nothing else. */
  lemma RollsUnlessOverflow(m: FeeMarket, timestamp: nat)
    ensures At(m, timestamp).Err? <==> At(m, timestamp) == Err(GasOverflow) || timestamp < m.windowTs
    ensures timestamp < m.windowTs ==> At(m, timestamp) == Err(TimestampRegressed)
  {
  }

  lemma BatchWithinWindow(rules: Rules, ctx: BatchContext, s: State, b: seq<Transaction>, slots: set<Slot>, w: FeeMarket)
    requires Separates(rules.crypto, slots) && FeeMarketSlot in slots
    requires RollsTo(rules.crypto, s, ctx.timestamp, w) && ctx.baseFee == w.baseFee
    requires PriceSum(PriceOf, b) <= Budget(w) && forall t :: t in b ==> Ordinary(rules, ctx, slots, t)
    ensures Faultless(ExecuteBatch(rules, ctx, s, b), FeeFault)
  {
    if b != [] {
      BatchPricePositive(b);
    }
    CutBlocksNeverOverrun(rules, ctx, s, b, slots, w);
  }

  // ----- and the provision is needed

  lemma {:induction false} ReplayQuiet(step: Step, market: Market, s: State, ins: seq<Instruction>)
    requires forall t: State, i: Instruction :: i in ins ==> Quiet(step, market, t, i)
    requires Replay(step, s, ins).Ok?
    ensures market(Replay(step, s, ins).value) == market(s)
    decreases |ins|
  {
    if ins != [] {
      ReplayQuiet(step, market, s, ins[..|ins| - 1]);
      assert Quiet(step, market, Replay(step, s, ins[..|ins| - 1]).value, ins[|ins| - 1]);
    }
  }

  lemma ChargeNeedsRoll(crypto: Crypto, t: State, i: Instruction)
    requires i.ChargeBaseFee? && StepOf(crypto)(t, i).Ok?
    ensures MarketAt(crypto, t).Ok? && At(MarketAt(crypto, t).value, i.timestamp).Ok?
  {
  }

  lemma PrefixReplays(step: Step, s: State, a: seq<Instruction>, i: Instruction, b: seq<Instruction>)
    requires Replay(step, s, a + [i] + b).Ok?
    ensures Replay(step, s, a).Ok? && step(Replay(step, s, a).value, i).Ok?
  {
    var all := a + [i] + b;
    var upto := a + [i];
    assert all[..|upto|] == upto && upto[..|a|] == a;
    if Replay(step, s, upto).Err? {
      ReplayFails(step, s, all, |upto|);
    }
  }

  lemma TransactionNeedsRoll(rules: Rules, ctx: BatchContext, s: State, slots: set<Slot>, t: Transaction)
    requires Separates(rules.crypto, slots) && FeeMarketSlot in slots && Ordinary(rules, ctx, slots, t)
    requires Compile(rules, t, ctx).Ok? && Replay(StepOf(rules.crypto), s, Compile(rules, t, ctx).value).Ok?
    ensures MarketAt(rules.crypto, s).Ok? && At(MarketAt(rules.crypto, s).value, ctx.timestamp).Ok?
  {
    var step, market := StepOf(rules.crypto), MarketOf(rules.crypto);
    AroundCharge(rules, t, ctx);
    var before, charge := BeforeCharge(t), ChargeBaseFee(ctx.timestamp, ctx.baseFee, PriceOf(t));
    BeforeChargeQuiet(rules, ctx, slots, t);
    PrefixReplays(step, s, before, charge, AfterCharge(t, ctx));
    ReplayQuiet(step, market, s, before);
    ChargeNeedsRoll(rules.crypto, Replay(step, s, before).value, charge);
  }

  /** A non-empty batch executes only if the market can be rolled to its timestamp. */
  lemma RollIsNecessary(rules: Rules, ctx: BatchContext, s: State, slots: set<Slot>, txs: seq<Transaction>)
    requires Separates(rules.crypto, slots) && FeeMarketSlot in slots
    requires txs != [] && Ordinary(rules, ctx, slots, txs[0]) && ExecuteBatch(rules, ctx, s, txs).Ok?
    ensures MarketAt(rules.crypto, s).Ok? && At(MarketAt(rules.crypto, s).value, ctx.timestamp).Ok?
  {
    var compile, step := CompilerOf(rules, ctx), StepOf(rules.crypto);
    if RunBatch(compile, step, s, txs[..1]).Err? {
      FailurePropagates(compile, step, s, txs, 1);
    }
    LastTransaction(compile, step, s, txs[..1]);
    assert txs[..1][..0] == [];
    TransactionNeedsRoll(rules, ctx, s, slots, txs[0]);
  }

  lemma ChargeFaults(crypto: Crypto, t: State, i: Instruction)
    requires i.ChargeBaseFee? && MarketAt(crypto, t).Ok? && At(MarketAt(crypto, t).value, i.timestamp).Err?
    ensures StepOf(crypto)(t, i) == Err(GasFault(At(MarketAt(crypto, t).value, i.timestamp).error))
  {
  }

  lemma UnrolledBatchFaults(rules: Rules, ctx: BatchContext, s: State, slots: set<Slot>, txs: seq<Transaction>)
    requires Separates(rules.crypto, slots) && FeeMarketSlot in slots && txs != [] && Ordinary(rules, ctx, slots, txs[0])
    requires Compile(rules, txs[0], ctx).Ok? && Replay(StepOf(rules.crypto), s, BeforeCharge(txs[0])).Ok?
    requires MarketAt(rules.crypto, s).Ok? && At(MarketAt(rules.crypto, s).value, ctx.timestamp).Err?
    ensures var r := ExecuteBatch(rules, ctx, s, txs); r.Err? && r.error.StepFailed? && FeeFault(r.error.failure)
  {
    var step, market, t := StepOf(rules.crypto), MarketOf(rules.crypto), txs[0];
    AroundCharge(rules, t, ctx);
    var before, charge := BeforeCharge(t), ChargeBaseFee(ctx.timestamp, ctx.baseFee, PriceOf(t));
    BeforeChargeQuiet(rules, ctx, slots, t);
    ReplayQuiet(step, market, s, before);
    ChargeFaults(rules.crypto, Replay(step, s, before).value, charge);
    FirstTransactionFails(CompilerOf(rules, ctx), step, s, txs, before, charge, AfterCharge(t, ctx));
  }

  lemma BeforeChargeQuiet(rules: Rules, ctx: BatchContext, slots: set<Slot>, t: Transaction)
    requires Separates(rules.crypto, slots) && FeeMarketSlot in slots && Ordinary(rules, ctx, slots, t) && Compile(rules, t, ctx).Ok?
    ensures forall u: State, i: Instruction :: i in BeforeCharge(t) ==> Quiet(StepOf(rules.crypto), MarketOf(rules.crypto), u, i)
  {
    AroundCharge(rules, t, ctx);
    AroundIdle(t, ctx);
    forall u: State, i: Instruction | i in BeforeCharge(t) ensures Quiet(StepOf(rules.crypto), MarketOf(rules.crypto), u, i) {
      assert i in Compile(rules, t, ctx).value;
      QuietStep(rules.crypto, slots, u, i);
    }
  }

  /** The exact condition. For an ordinary batch cut to its budget whose first transaction compiles
      and gets as far as its charge, sealing fails on a base-fee charge if and only if the market
      cannot be rolled: the timestamp is behind the market's window, or the next base fee overflows. */
  lemma FeeFaultIff(rules: Rules, s: State, timestamp: nat, recipient: Bytes32, slots: set<Slot>, txs: seq<Transaction>)
    requires Separates(rules.crypto, slots) && FeeMarketSlot in slots && timestamp <= U64_MAX && MarketAt(rules.crypto, s).Ok?
    requires txs != [] && FeesFit(rules, s, timestamp, recipient, slots, txs)
    requires Compile(rules, txs[0], ContextAt(rules.crypto, s, timestamp, recipient)).Ok?
    requires Replay(StepOf(rules.crypto), s, BeforeCharge(txs[0])).Ok?
    ensures var m := MarketAt(rules.crypto, s).value;
            !FeeFaultless(rules, s, timestamp, recipient, txs) <==>
            timestamp < m.windowTs || At(m, timestamp) == Err(GasOverflow)
  {
    var m := MarketAt(rules.crypto, s).value;
    RollsUnlessOverflow(m, timestamp);
    if At(m, timestamp).Ok? {
      ProducedBlocksNeverOverrun(rules, s, timestamp, recipient, slots, txs);
    } else {
      UnrolledBatchFaults(rules, ContextAt(rules.crypto, s, timestamp, recipient), s, slots, txs);
    }
  }

  /** A first block over a state whose market is already in a later window is such a case: every
      charge stamped before it fails, whatever it charges. */
  lemma LaterWindowFaults(crypto: Crypto, m: FeeMarket, timestamp: nat, baseFee: nat, gas: nat)
    requires MarketFits(m) && timestamp < m.windowTs
    ensures var s := TrieTree.Insert(EmptyState, crypto.path(FeeMarketSlot), EncodeMarket(m));
            && MarketAt(crypto, s) == Ok(m)
            && StepOf(crypto)(s, ChargeBaseFee(timestamp, baseFee, gas)) == Err(GasFault(TimestampRegressed))
  {
    MarketRoundTrip(m);
    var s := TrieTree.Insert(EmptyState, crypto.path(FeeMarketSlot), EncodeMarket(m));
    ChargeFaults(crypto, s, ChargeBaseFee(timestamp, baseFee, gas));
  }

  // ----- the sequencer

  datatype Block = Block(timestamp: nat, baseFee: nat, feeRecipient: Bytes32, txs: seq<Transaction>,
                         preRoot: Digest, postRoot: Digest, trace: Trace)

  datatype ProduceError = Unexecutable(index: nat, step: nat, failure: StepError) | Refused(chain: ChainError)

  /** Seals on copies of the trie, so that a failure leaves the original as it was. */
  method SealOn(rules: Rules, ctx: BatchContext, trie: MerkleTrie, txs: seq<Transaction>)
    returns (r: Sealing, next: MerkleTrie)
    requires trie.Valid()
    ensures r == Seal(ExecOf(rules, ctx, trie.Now()), txs)
    ensures r.Sealed? ==> fresh(next) && next.Valid() && next.Now() == r.post
  {
    var left := txs;
    next := trie;
    while true
      invariant Seal(ExecOf(rules, ctx, trie.Now()), left) == Seal(ExecOf(rules, ctx, trie.Now()), txs)
      decreases |left|
    {
      next := trie.Clone();
      var executed := ExecuteBatchOn(rules, ctx, next, left);
      match executed
      case Ok(trace) => return Sealed(left, State(next.values, next.root), trace), next;
      case Err(StepFailed(index, step, failure)) => return Broken(index, step, failure), next;
      case Err(CompileFailed(index, _)) =>
        if !(index < |left| && |left| > 1) {
          return Nothing, next;
        }
        left := RemoveAt(left, index);
    }
  }

  /** The pairs a block's batch tree is built over. */
  method EntriesOf(txs: seq<Transaction>, starts: seq<nat>, codec: TxCodec) returns (entries: seq<Entry>)
    requires |txs| == |starts|
    ensures Publishes(codec, entries, txs, starts)
  {
    entries := [];
    for i := 0 to |txs|
      invariant |entries| == i && forall j :: 0 <= j < i ==> entries[j] == (starts[j], codec.encode(txs[j]))
    {
      entries := entries + [(starts[i], codec.encode(txs[i]))];
    }
  }

  /** A batch commitment: the header over the tree of the block's transactions and their starts. */
  ghost predicate CommitsTo(codec: TxCodec, d: Digest, ctx: BatchContext, txs: seq<Transaction>, trace: Trace) {
    exists t, entries ::
      && Publishes(codec, entries, txs, trace.txStarts) && Covers(t, entries)
      && d == BatchHeader(ctx.timestamp, ctx.baseFee, ctx.feeRecipient, |txs|, Root(t))
  }

  /** One header commits to one batch: the same transactions, starting at the same steps. */
  lemma CommitmentBinds(codec: TxCodec, d: Digest, ctx: BatchContext, txs: seq<Transaction>, trace: Trace,
                        ctx2: BatchContext, txs2: seq<Transaction>, trace2: Trace)
    requires CommitsTo(codec, d, ctx, txs, trace) && CommitsTo(codec, d, ctx2, txs2, trace2)
    requires ReadsBack(codec, txs) && ReadsBack(codec, txs2)
    ensures ctx == ctx2 && txs == txs2 && trace.txStarts == trace2.txStarts
  {
    var t, entries :| Publishes(codec, entries, txs, trace.txStarts) && Covers(t, entries)
      && d == BatchHeader(ctx.timestamp, ctx.baseFee, ctx.feeRecipient, |txs|, Root(t));
    var u, others :| Publishes(codec, others, txs2, trace2.txStarts) && Covers(u, others)
      && d == BatchHeader(ctx2.timestamp, ctx2.baseFee, ctx2.feeRecipient, |txs2|, Root(u));
    RootBindsBatch(t, entries, u, others);
    forall i | 0 <= i < |txs| ensures txs[i] == txs2[i] && trace.txStarts[i] == trace2.txStarts[i] {
      assert entries[i] == others[i];
      assert codec.decode(codec.encode(txs[i])) == codec.decode(codec.encode(txs2[i]));
    }
  }

  /** The same, of the wire format, for every two batches of transactions within its limits. */
  lemma WireCommitmentBinds(d: Digest, ctx: BatchContext, txs: seq<Transaction>, trace: Trace,
                            ctx2: BatchContext, txs2: seq<Transaction>, trace2: Trace)
    requires CommitsTo(WireCodec(), d, ctx, txs, trace) && CommitsTo(WireCodec(), d, ctx2, txs2, trace2)
    requires (forall j :: 0 <= j < |txs| ==> TxFits(txs[j])) && (forall j :: 0 <= j < |txs2| ==> TxFits(txs2[j]))
    ensures ctx == ctx2 && txs == txs2 && trace.txStarts == trace2.txStarts
  {
    WireReadsBack(txs);
    WireReadsBack(txs2);
    CommitmentBinds(WireCodec(), d, ctx, txs, trace, ctx2, txs2, trace2);
  }

  method CommitmentOf(codec: TxCodec, ctx: BatchContext, txs: seq<Transaction>, trace: Trace) returns (d: Digest)
    requires |txs| == |trace.txStarts|
    ensures CommitsTo(codec, d, ctx, txs, trace)
  {
    var entries := EntriesOf(txs, trace.txStarts, codec);
    var t := Build(entries);
    d := BatchHeader(ctx.timestamp, ctx.baseFee, ctx.feeRecipient, t.txCount, Root(t));
    assert Publishes(codec, entries, txs, trace.txStarts) && Covers(t, entries);
  }

  lemma {:induction false} SealedExecutes(exec: Exec, txs: seq<Transaction>)
    requires Seal(exec, txs).Sealed?
    ensures exec(Seal(exec, txs).txs) == Ok((Seal(exec, txs).post, Seal(exec, txs).trace))
    decreases |txs|
  {
    var r := exec(txs);
    if r.Err? {
      SealedExecutes(exec, RemoveAt(txs, r.error.index));
    }
  }

  lemma {:induction false} SealedNotEmpty(exec: Exec, txs: seq<Transaction>)
    requires txs != [] && Seal(exec, txs).Sealed?
    ensures Seal(exec, txs).txs != []
    decreases |txs|
  {
    var r := exec(txs);
    if r.Err? {
      SealedNotEmpty(exec, RemoveAt(txs, r.error.index));
    }
  }

  /** A sealed block's trace has a start for each of its transactions. */
  lemma SealedStarts(rules: Rules, ctx: BatchContext, s: State, txs: seq<Transaction>)
    requires Seal(ExecOf(rules, ctx, s), txs).Sealed?
    ensures var r := Seal(ExecOf(rules, ctx, s), txs); |r.trace.txStarts| == |r.txs|
  {
    var r := Seal(ExecOf(rules, ctx, s), txs);
    SealedExecutes(ExecOf(rules, ctx, s), txs);
    BatchIsHonest(CompilerOf(rules, ctx), StepOf(rules.crypto), s, r.txs);
  }

  /** Over whichever slots the execution keeps apart, it left the market in a timestamp's window. */
  ghost predicate LeavesWindow(crypto: Crypto, ins: seq<Instruction>, s: State, timestamp: nat) {
    forall slots :: KeptApart(crypto, slots, ins) ==> SetTo(crypto, s, timestamp)
  }

  lemma SealedSetsWindow(rules: Rules, ctx: BatchContext, s: State, txs: seq<Transaction>)
    requires txs != [] && Seal(ExecOf(rules, ctx, s), txs).Sealed?
    ensures var r := Seal(ExecOf(rules, ctx, s), txs); LeavesWindow(rules.crypto, r.trace.instructions, r.post, ctx.timestamp)
  {
    var r := Seal(ExecOf(rules, ctx, s), txs);
    SealedExecutes(ExecOf(rules, ctx, s), txs);
    SealedNotEmpty(ExecOf(rules, ctx, s), txs);
    forall slots | KeptApart(rules.crypto, slots, r.trace.instructions) ensures SetTo(rules.crypto, r.post, ctx.timestamp) {
      BatchSetsWindow(rules, ctx, s, r.txs, slots);
    }
  }

  class Sequencer {
    var state: MerkleTrie
    var head: Digest
    var blocks: seq<Block>
    var assertions: seq<Digest>
    const mempool: Mempool
    const chain: AssertionChain
    const rules: Rules
    const codec: TxCodec
    const feeRecipient: Bytes32
    const limits: map<nat, nat>
    const identity: nat
    const bond: nat

    /** The head assertion claims the state the sequencer holds. */
    ghost predicate Valid()
      reads this, state, mempool, chain
    {
      && state.Valid() && mempool.Valid() && mempool.pool.price == PriceOf && Kept(chain.Now())
      && head in chain.records && chain.records[head].assertion.postStateRoot == state.root
      && |assertions| == |blocks|
      && (blocks != [] ==>
            LeavesWindow(rules.crypto, blocks[|blocks| - 1].trace.instructions, state.Now(), blocks[|blocks| - 1].timestamp))
    }

    /** There is a last block, and its steps touched only slots kept apart. */
    ghost predicate Behind(slots: set<Slot>)
      reads this
    {
      blocks != [] && KeptApart(rules.crypto, slots, blocks[|blocks| - 1].trace.instructions)
    }

    /** The market can be read and is not past the clock: of the first block alone, since from then on
        block timestamps are never behind the market's window. */
    ghost predicate ClockReady(slots: set<Slot>, clock: nat)
      reads this, state
    {
      if blocks == [] then
        && Separates(rules.crypto, slots) && FeeMarketSlot in slots && MarketAt(rules.crypto, state.Now()).Ok?
        && MarketAt(rules.crypto, state.Now()).value.windowTs <= clock
      else Behind(slots)
    }

    /** Nothing but the base fee's own growth stands in the way of rolling the market. */
    ghost predicate NoOverflow(clock: nat)
      reads this, state
    {
      At(MarketOrGenesis(rules.crypto, state.Now()), NextTimestamp(clock)) != Err(GasOverflow)
    }

    /** Over a state the chain's latest final assertion claims. */
    constructor (state: MerkleTrie, chain: AssertionChain, rules: Rules, codec: TxCodec, hash: Transaction -> Digest,
                 identity: nat, bond: nat, feeRecipient: Bytes32, limits: map<nat, nat>)
      requires state.Valid() && Safe(chain.Now())
      requires chain.records[chain.latestFinalized.value].assertion.postStateRoot == state.root
      ensures Valid() && this.state == state && this.chain == chain && fresh(mempool) && blocks == []
    {
      this.state, this.chain, this.rules, this.codec := state, chain, rules, codec;
      this.identity, this.bond, this.feeRecipient, this.limits := identity, bond, feeRecipient, limits;
      mempool := new Mempool(4096, PoolOf(rules, hash));
      blocks, assertions := [], [];
      assert RecordOk(chain.Now(), chain.latestFinalized.value);
      head := Id(chain.records[chain.latestFinalized.value].assertion);
    }

    /** The clock, but never earlier than the previous block. */
    function NextTimestamp(clock: nat): (ts: nat)
      reads this
      ensures clock <= ts && (blocks != [] ==> blocks[|blocks| - 1].timestamp <= ts)
    {
      if blocks == [] then clock else Max(clock, blocks[|blocks| - 1].timestamp)
    }

    function Context(s: State, clock: nat): BatchContext
      reads this
    {
      ContextAt(rules.crypto, s, NextTimestamp(clock), feeRecipient)
    }

    /** Takes a prefix of the queue that fits what the window has left. */
    method Cut(limit: nat, timestamp: nat) returns (taken: seq<Transaction>)
      requires Valid()
      modifies mempool`queued, mempool`hashes, mempool`tip, mempool`claimed, mempool`trail
      ensures Valid() && taken + mempool.queued == old(mempool.queued)
      ensures PriceSum(PriceOf, taken) <= Budget(WindowAt(MarketOrGenesis(rules.crypto, state.Now()), timestamp))
    {
      var w := WindowAt(MarketOrGenesis(rules.crypto, State(state.values, state.root)), timestamp);
      var budget, cap := Budget(w), CapOf(limits, w);
      ghost var fitting;
      taken, fitting := mempool.TakeFitting(limit, MAX_BATCH_BYTES, budget, cap);
      PrefixPrice(old(mempool.queued), limit, fitting, |taken|, budget, cap);
      assert taken == old(mempool.queued)[..|taken|];
    }

    /** Asserts a sealed block on the chain and makes it the head. */
    method Adopt(ctx: BatchContext, txs: seq<Transaction>, next: MerkleTrie, trace: Trace)
      returns (r: Result<Option<(Block, Digest)>, ProduceError>)
      requires Valid() && next.Valid() && |txs| == |trace.txStarts|
      requires LeavesWindow(rules.crypto, trace.instructions, next.Now(), ctx.timestamp)
      modifies this`state, this`head, this`blocks, this`assertions, chain`records
      ensures Valid()
      ensures match r
              case Ok(Some((block, id))) =>
                && block == Block(ctx.timestamp, ctx.baseFee, ctx.feeRecipient, txs, old(state.root), next.root, trace)
                && state == next && head == id && blocks == old(blocks) + [block] && assertions == old(assertions) + [id]
                && id in chain.records && Asserts(old(head), block, chain.records[id].assertion)
                && chain.Now() == Post(old(chain.Now()), chain.records[id].assertion).0
              case Ok(None) => false
              case Err(e) =>
                && state == old(state) && chain.Now() == old(chain.Now()) && blocks == old(blocks)
                && e.Refused? && (e.chain.ParentRejected? || e.chain.BondTooSmall?)
    {
      var commitment := CommitmentOf(codec, ctx, txs, trace);
      var a := Assertion(head, identity, state.root, next.root, commitment, |trace.instructions|, bond);
      var block := Block(ctx.timestamp, ctx.baseFee, ctx.feeRecipient, txs, state.root, next.root, trace);
      ghost var before := chain.Now();
      var posted := chain.PostAssertion(a);
      if posted.Err? {
        return Err(Refused(posted.error));
      }
      PostKeeps(before, a);
      state := next;
      head := posted.value;
      blocks := blocks + [block];
      assertions := assertions + [head];
      return Ok(Some((block, head)));
    }

    /** What a block's assertion claims. */
    ghost predicate Asserts(parent: Digest, block: Block, a: Assertion) {
      && a.parent == parent && a.preStateRoot == block.preRoot && a.postStateRoot == block.postRoot
      && a.traceLength == |block.trace.instructions| && a.bond == bond && a.proposer == identity
      && CommitsTo(codec, a.batchCommitment, BatchContext(block.timestamp, block.baseFee, block.feeRecipient), block.txs, block.trace)
    }

    /** Seals a batch and, if anything is left of it, asserts it. Nothing changes unless a block is
        produced, and then the state is the block's execution. */
    method SealAndAdopt(ctx: BatchContext, batch: seq<Transaction>) returns (r: Result<Option<(Block, Digest)>, ProduceError>)
      requires Valid() && batch != []
      modifies this`state, this`head, this`blocks, this`assertions, chain`records
      ensures Valid()
      ensures r.Ok? && r.value.Some? ==>
        var (block, id) := r.value.value;
        && Seal(ExecOf(rules, ctx, old(state.Now())), batch) == Sealed(block.txs, state.Now(), block.trace)
        && (block.timestamp, block.baseFee, block.feeRecipient) == (ctx.timestamp, ctx.baseFee, ctx.feeRecipient)
        && id in chain.records && Asserts(old(head), block, chain.records[id].assertion)
        && head == id && blocks == old(blocks) + [block] && assertions == old(assertions) + [id]
      ensures !(r.Ok? && r.value.Some?) ==> state == old(state) && chain.Now() == old(chain.Now()) && blocks == old(blocks)
      ensures r == Ok(None) ==> Seal(ExecOf(rules, ctx, old(state.Now())), batch).Nothing?
      ensures r.Err? && r.error.Unexecutable? ==>
        Seal(ExecOf(rules, ctx, old(state.Now())), batch) == Broken(r.error.index, r.error.step, r.error.failure)
      ensures r.Err? && r.error.Refused? ==> r.error.chain.ParentRejected? || r.error.chain.BondTooSmall?
    {
      var sealed, next := SealOn(rules, ctx, state, batch);
      match sealed
      case Nothing => return Ok(None);
      case Broken(i, step, e) => return Err(Unexecutable(i, step, e));
      case Sealed(txs, post, trace) =>
        SealedStarts(rules, ctx, state.Now(), batch);
        SealedSetsWindow(rules, ctx, state.Now(), batch);
        r := Adopt(ctx, txs, next, trace);
    }

    /** A batch cut and stamped now never fails a base-fee charge. */
    lemma FeesInHand(clock: nat, slots: set<Slot>, txs: seq<Transaction>)
      requires Valid() && NextTimestamp(clock) <= U64_MAX && ClockReady(slots, clock) && NoOverflow(clock)
      requires FeesFit(rules, state.Now(), NextTimestamp(clock), feeRecipient, slots, txs)
      ensures FeeFaultless(rules, state.Now(), NextTimestamp(clock), feeRecipient, txs)
    {
      ProducedBlocksNeverOverrun(rules, state.Now(), NextTimestamp(clock), feeRecipient, slots, txs);
    }

    /** Cuts a block to the window, seals it and asserts it. Whatever is taken leaves the queue. */
    method Produce(limit: nat, clock: nat, ghost slots: set<Slot>)
      returns (r: Result<Option<(Block, Digest)>, ProduceError>, ghost taken: seq<Transaction>)
      requires Valid() && NextTimestamp(clock) <= U64_MAX
      modifies this`state, this`head, this`blocks, this`assertions, chain`records
      modifies mempool`queued, mempool`hashes, mempool`tip, mempool`claimed, mempool`trail
      ensures Valid() && taken + mempool.queued == old(mempool.queued)
      ensures PriceSum(PriceOf, taken) <= Budget(WindowAt(MarketOrGenesis(rules.crypto, old(state.Now())), old(NextTimestamp(clock))))
      ensures r.Ok? && r.value.Some? ==>
        Seal(ExecOf(rules, old(Context(state.Now(), clock)), old(state.Now())), taken)
          == Sealed(r.value.value.0.txs, state.Now(), r.value.value.0.trace)
      ensures !(r.Ok? && r.value.Some?) ==> state == old(state) && chain.Now() == old(chain.Now())
      ensures r.Err? && r.error.Unexecutable? ==>
        Seal(ExecOf(rules, old(Context(state.Now(), clock)), old(state.Now())), taken)
          == Broken(r.error.index, r.error.step, r.error.failure)
      ensures r.Err? && r.error.Refused? ==> r.error.chain.ParentRejected? || r.error.chain.BondTooSmall?
      ensures (&& old(ClockReady(slots, clock)) && old(NoOverflow(clock)) && r.Err? && r.error.Unexecutable?
               && forall t :: t in taken ==> Ordinary(rules, old(Context(state.Now(), clock)), slots, t))
              ==> !FeeFault(r.error.failure)
    {
      var timestamp := NextTimestamp(clock);
      var ctx := Context(State(state.values, state.root), clock);
      var batch := Cut(limit, timestamp);
      taken := batch;
      if batch == [] {
        return Ok(None), taken;
      }
      if ClockReady(slots, clock) && NoOverflow(clock) && forall t :: t in batch ==> Ordinary(rules, ctx, slots, t) {
        FeesInHand(clock, slots, batch);
      }
      r := SealAndAdopt(ctx, batch);
    }
  }

  lemma PrefixPrice(queue: seq<Transaction>, limit: nat, fitting: nat, n: nat, budget: nat, cap: nat -> nat)
    requires Longest(queue, limit, fitting, p => GasFits(PriceOf, p, budget, cap)) && n <= fitting <= |queue|
    ensures PriceSum(PriceOf, queue[..n]) <= budget
  {
    var fits := (p: seq<Transaction>) => GasFits(PriceOf, p, budget, cap);
    if n > 0 {
      assert Longest(queue, limit, fitting, fits);
      assert fits(queue[..n]);
    }
  }
}
