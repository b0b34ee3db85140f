/** What admission one at a time promises of a batch executed whole: exactly when the prefix of the
    queue a block is cut from still executes, and when sealing it fails. */
module Admissions {
  import opened Digests
  import opened TrieTree
  import opened Records
  import opened Gas
  import opened Wire
  import opened Machine
  import opened Traces
  import opened Execution
  import opened Ledger
  import opened FeeMarkets
  import opened Mempools
  import opened Replays
  import opened Sequencers

  // ----- executing side by side, for any step function

  type Relation = (State, State) -> bool

  predicate Faulted(r: Result<State, StepError>) {
    r.Err? && FeeFault(r.error)
  }

  /** Unless one of two outcomes is a fee fault, both succeed, in related states, or both fail. */
  predicate Together(alike: Relation, a: Result<State, StepError>, b: Result<State, StepError>) {
    Faulted(a) || Faulted(b) || ((a.Ok? <==> b.Ok?) && (a.Ok? ==> alike(a.value, b.value)))
  }

  ghost predicate Parallel(step: Step, alike: Relation, i: Instruction) {
    forall t: State, u: State :: alike(t, u) ==> Together(alike, step(t, i), step(u, i))
  }

  lemma {:induction false} ReplayTogether(step: Step, alike: Relation, t: State, u: State, ins: seq<Instruction>)
    requires alike(t, u) && forall i :: i in ins ==> Parallel(step, alike, i)
    ensures Together(alike, Replay(step, t, ins), Replay(step, u, ins))
    decreases |ins|
  {
    if ins != [] {
      ReplayTogether(step, alike, t, u, ins[..|ins| - 1]);
      assert Parallel(step, alike, ins[|ins| - 1]);
    }
  }

  /** A batch whose transactions but the last executed is decided by the last. */
  lemma LastDecides<E>(compile: Compiler<E>, step: Step, s: State, txs: seq<Transaction>)
    requires txs != [] && RunBatch(compile, step, s, txs[..|txs| - 1]).Ok?
    ensures var r, t := RunBatch(compile, step, s, txs), txs[|txs| - 1];
            if compile(t).Err? then r.Err?
            else match Replay(step, RunBatch(compile, step, s, txs[..|txs| - 1]).value.0, compile(t).value)
              case Ok(u) => r.Ok? && r.value.0 == u
              case Err(e) => r.Err? && r.error.StepFailed? && r.error.failure == e
  {
    var n := |txs| - 1;
    var before := RunBatch(compile, step, s, txs[..n]).value;
    if compile(txs[n]).Ok? {
      StepsFollowReplay<E>(step, before.0, MarkStart(before.1), compile(txs[n]).value, n);
    }
  }

  // ----- states that differ in the fee market alone

  ghost predicate SameElsewhere(crypto: Crypto, t: State, u: State) {
    forall k: Key :: k != crypto.path(FeeMarketSlot) ==> Get(t, k) == Get(u, k)
  }

  /** Readable markets, and otherwise the same entries. */
  ghost function Alike(crypto: Crypto): Relation {
    (t: State, u: State) => MarketAt(crypto, t).Ok? && MarketAt(crypto, u).Ok? && SameElsewhere(crypto, t, u)
  }

  /** Writing both, the market as they like and anything else the same, keeps them so. */
  lemma WritesKeepElsewhere(crypto: Crypto, t: State, u: State, k: Key, a: Bytes, b: Bytes)
    requires SameElsewhere(crypto, t, u) && (k == crypto.path(FeeMarketSlot) || a == b)
    ensures SameElsewhere(crypto, TrieTree.Insert(t, k, a), TrieTree.Insert(u, k, b))
  {
    forall q: Key | q != crypto.path(FeeMarketSlot)
      ensures Get(TrieTree.Insert(t, k, a), q) == Get(TrieTree.Insert(u, k, b), q)
    {
      assert Get(t, q) == Get(u, q);
    }
  }

  lemma ChargeErrors(crypto: Crypto, i: Instruction, current: Option<Bytes>)
    requires i.ChargeBaseFee? && MarketIn(current).Ok? && Transition(crypto, i, current).Err?
    ensures FeeFault(Transition(crypto, i, current).error)
  {
  }

  /** A charge fails over a fee, or leaves a market that can be read. */
  lemma ChargeOutcome(crypto: Crypto, i: Instruction, t: State)
    requires i.ChargeBaseFee? && Typed(i) && MarketAt(crypto, t).Ok?
    ensures match Transition(crypto, i, Get(t, crypto.path(FeeMarketSlot)))
            case Err(e) => FeeFault(e) && Apply(crypto, t, i) == Err(e)
            case Ok(v) =>
              && Apply(crypto, t, i) == Ok(TrieTree.Insert(t, crypto.path(FeeMarketSlot), v))
              && MarketAt(crypto, TrieTree.Insert(t, crypto.path(FeeMarketSlot), v)).Ok?
  {
    var current := Get(t, crypto.path(FeeMarketSlot));
    if Transition(crypto, i, current).Ok? {
      ChargedMarket(crypto, i.timestamp, i.baseFee, i.gas, current);
    } else {
      ChargeErrors(crypto, i, current);
    }
  }

  lemma ChargeParallel(crypto: Crypto, i: Instruction, t: State, u: State)
    requires i.ChargeBaseFee? && Typed(i) && Alike(crypto)(t, u)
    ensures Together(Alike(crypto), StepOf(crypto)(t, i), StepOf(crypto)(u, i))
  {
    var k := crypto.path(FeeMarketSlot);
    ChargeOutcome(crypto, i, t);
    ChargeOutcome(crypto, i, u);
    if Apply(crypto, t, i).Ok? && Apply(crypto, u, i).Ok? {
      WritesKeepElsewhere(crypto, t, u, k, Transition(crypto, i, Get(t, k)).value, Transition(crypto, i, Get(u, k)).value);
    }
  }

  lemma QuietParallel(crypto: Crypto, slots: set<Slot>, i: Instruction, t: State, u: State)
    requires Separates(crypto, slots) && SlotOf(i) in slots && FeeMarketSlot in slots
    requires !i.ChargeBaseFee? && !i.WriteFeeMarket? && Alike(crypto)(t, u)
    ensures Together(Alike(crypto), StepOf(crypto)(t, i), StepOf(crypto)(u, i))
  {
    var k := Where(crypto, i);
    assert k != crypto.path(FeeMarketSlot) && Get(t, k) == Get(u, k);
    if Apply(crypto, t, i).Ok? {
      OtherSlots(crypto, t, i, FeeMarketSlot);
      OtherSlots(crypto, u, i, FeeMarketSlot);
      var v := Transition(crypto, i, Get(t, k)).value;
      WritesKeepElsewhere(crypto, t, u, k, v, v);
    }
  }

  lemma StepParallel(crypto: Crypto, slots: set<Slot>, i: Instruction)
    requires Separates(crypto, slots) && SlotOf(i) in slots && FeeMarketSlot in slots && Typed(i) && !i.WriteFeeMarket?
    ensures Parallel(StepOf(crypto), Alike(crypto), i)
  {
    forall t: State, u: State | Alike(crypto)(t, u)
      ensures Together(Alike(crypto), StepOf(crypto)(t, i), StepOf(crypto)(u, i))
    {
      if i.ChargeBaseFee? {
        ChargeParallel(crypto, i, t, u);
      } else {
        QuietParallel(crypto, slots, i, t, u);
      }
    }
  }

  lemma WithMarketAgrees(crypto: Crypto, base: State, tip: State)
    requires MarketAt(crypto, base).Ok?
    ensures MarketAt(crypto, WithMarketOf(crypto, base, tip)) == MarketAt(crypto, base)
    ensures SameElsewhere(crypto, tip, WithMarketOf(crypto, base, tip))
  {
    MarketRoundTrip(GenesisMarket(DEFAULT_BASE_FEE_FLOOR, DEFAULT_GAS_TARGET));
  }

  // ----- the batch and the pool

  /** An ordinary batch cut to what the window it is stamped in has left. */
  ghost predicate Fits(rules: Rules, ctx: BatchContext, s: State, slots: set<Slot>, w: FeeMarket, txs: seq<Transaction>) {
    && Separates(rules.crypto, slots) && FeeMarketSlot in slots
    && RollsTo(rules.crypto, s, ctx.timestamp, w) && ctx.baseFee == w.baseFee
    && PriceSum(PriceOf, txs) <= Budget(w) && forall t :: t in txs ==> Ordinary(rules, ctx, slots, t)
  }

  lemma FitsPrefix(rules: Rules, ctx: BatchContext, s: State, slots: set<Slot>, w: FeeMarket, txs: seq<Transaction>)
    requires Fits(rules, ctx, s, slots, w, txs) && txs != []
    ensures Fits(rules, ctx, s, slots, w, txs[..|txs| - 1]) && PriceOf(txs[|txs| - 1]) <= Budget(w)
    ensures Ordinary(rules, ctx, slots, txs[|txs| - 1])
  {
    assert forall t :: t in txs[..|txs| - 1] ==> t in txs;
    assert txs[|txs| - 1] in txs;
  }

  lemma FitsNeverFaults(rules: Rules, ctx: BatchContext, s: State, slots: set<Slot>, w: FeeMarket, txs: seq<Transaction>)
    requires Fits(rules, ctx, s, slots, w, txs)
    ensures Faultless(ExecuteBatch(rules, ctx, s, txs), FeeFault)
  {
    BatchWithinWindow(rules, ctx, s, txs, slots, w);
  }

  lemma CompiledParallel(rules: Rules, ctx: BatchContext, slots: set<Slot>, t: Transaction)
    requires Separates(rules.crypto, slots) && FeeMarketSlot in slots && ctx.timestamp <= U64_MAX
    requires Ordinary(rules, ctx, slots, t) && Compile(rules, t, ctx).Ok?
    ensures forall i :: i in Compile(rules, t, ctx).value ==> Parallel(StepOf(rules.crypto), Alike(rules.crypto), i)
  {
    AroundCharge(rules, t, ctx);
    AroundIdle(t, ctx);
    forall i | i in Compile(rules, t, ctx).value ensures Parallel(StepOf(rules.crypto), Alike(rules.crypto), i) {
      StepParallel(rules.crypto, slots, i);
    }
  }

  /** Admission of one transaction is its execution with the market put back. */
  lemma AdmitOutcome(rules: Rules, ctx: BatchContext, base: State, tip: State, t: Transaction, slots: set<Slot>, w: FeeMarket)
    requires Fits(rules, ctx, base, slots, w, [t])
    ensures var r, next := Admit(rules, ctx, base, tip, t), WithMarketOf(rules.crypto, base, tip);
            if Compile(rules, t, ctx).Err? then r.Err?
            else match Replay(StepOf(rules.crypto), next, Compile(rules, t, ctx).value)
              case Ok(u) => r == Ok(u)
              case Err(e) => r.Err? && !FeeFault(e)
  {
    var next := WithMarketOf(rules.crypto, base, tip);
    WithMarketAgrees(rules.crypto, base, tip);
    assert [t][..0] == [];
    LastDecides(CompilerOf(rules, ctx), StepOf(rules.crypto), next, [t]);
    FitsNeverFaults(rules, ctx, next, slots, w, [t]);
  }

  lemma AlikeBehind(crypto: Crypto, base: State, t: State, tip: State)
    requires Alike(crypto)(t, tip) && MarketAt(crypto, base).Ok?
    ensures Alike(crypto)(t, WithMarketOf(crypto, base, tip))
  {
    WithMarketAgrees(crypto, base, tip);
    var next := WithMarketOf(crypto, base, tip);
    forall k: Key | k != crypto.path(FeeMarketSlot) ensures Get(t, k) == Get(next, k) {
      assert Get(t, k) == Get(tip, k);
    }
  }

  /** The next transaction executes in the batch if and only if it is admitted on the tip. */
  lemma NextAdmitted(rules: Rules, ctx: BatchContext, s: State, slots: set<Slot>, w: FeeMarket, txs: seq<Transaction>, tip: State)
    requires Fits(rules, ctx, s, slots, w, txs) && txs != [] && ExecuteBatch(rules, ctx, s, txs[..|txs| - 1]).Ok?
    requires Alike(rules.crypto)(ExecuteBatch(rules, ctx, s, txs[..|txs| - 1]).value.0, tip)
    ensures var r, a := ExecuteBatch(rules, ctx, s, txs), Admit(rules, ctx, s, tip, txs[|txs| - 1]);
            (r.Ok? <==> a.Ok?) && (r.Ok? ==> Alike(rules.crypto)(r.value.0, a.value))
  {
    var step, t, before := StepOf(rules.crypto), txs[|txs| - 1], ExecuteBatch(rules, ctx, s, txs[..|txs| - 1]).value.0;
    FitsPrefix(rules, ctx, s, slots, w, txs);
    assert PriceSum(PriceOf, [t]) == PriceOf(t);
    AdmitOutcome(rules, ctx, s, tip, t, slots, w);
    LastDecides(CompilerOf(rules, ctx), step, s, txs);
    FitsNeverFaults(rules, ctx, s, slots, w, txs);
    if Compile(rules, t, ctx).Ok? {
      AlikeBehind(rules.crypto, s, before, tip);
      CompiledParallel(rules, ctx, slots, t);
      ReplayTogether(step, Alike(rules.crypto), before, WithMarketOf(rules.crypto, s, tip), Compile(rules, t, ctx).value);
    }
  }

  lemma {:induction false} RebuiltShorter(pool: PoolRules, ctx: BatchContext, base: State, txs: seq<Transaction>)
    ensures |Rebuilt(pool, ctx, base, txs).0| <= |txs|
    decreases |txs|
  {
    if txs != [] {
      RebuiltShorter(pool, ctx, base, txs[..|txs| - 1]);
    }
  }

  /** A rebuilt queue is whole if and only if its front is and its last transaction is admitted there. */
  lemma RebuiltWhole(pool: PoolRules, ctx: BatchContext, base: State, txs: seq<Transaction>)
    requires txs != []
    ensures var (front, trail) := Rebuilt(pool, ctx, base, txs[..|txs| - 1]);
            var a := pool.admit(ctx, base, trail[|trail| - 1], txs[|txs| - 1]);
            && (Rebuilt(pool, ctx, base, txs).0 == txs <==> front == txs[..|txs| - 1] && a.Ok?)
            && (a.Ok? ==> Rebuilt(pool, ctx, base, txs).1 == trail + [a.value])
  {
    var n := |txs| - 1;
    RebuiltShorter(pool, ctx, base, txs[..n]);
    var front := Rebuilt(pool, ctx, base, txs[..n]).0;
    assert (front + [txs[n]])[..|front|] == front;
    assert txs == txs[..n] + [txs[n]];
  }

  /** A batch cut to its window executes if and only if the pool, admitting its transactions one at a
      time in the same context over the same state, keeps them all. Each way the two differ only in
      the fee market. */
  lemma {:induction false} PrefixExecutesIff(rules: Rules, hash: Transaction -> Digest, ctx: BatchContext, s: State,
                                            slots: set<Slot>, w: FeeMarket, txs: seq<Transaction>)
    requires Fits(rules, ctx, s, slots, w, txs)
    ensures var r, (kept, trail) := ExecuteBatch(rules, ctx, s, txs), Rebuilt(PoolOf(rules, hash), ctx, s, txs);
            && (r.Ok? <==> kept == txs)
            && (r.Ok? ==> Alike(rules.crypto)(r.value.0, trail[|trail| - 1]))
    decreases |txs|
  {
    if txs != [] {
      var n := |txs| - 1;
      var pool := PoolOf(rules, hash);
      FitsPrefix(rules, ctx, s, slots, w, txs);
      PrefixExecutesIff(rules, hash, ctx, s, slots, w, txs[..n]);
      RebuiltWhole(pool, ctx, s, txs);
      if ExecuteBatch(rules, ctx, s, txs[..n]).Ok? {
        var trail := Rebuilt(pool, ctx, s, txs[..n]).1;
        NextAdmitted(rules, ctx, s, slots, w, txs, trail[|trail| - 1]);
      }
    }
  }

  // ----- when sealing fails

  lemma FilterLast(keep: Transaction -> bool, txs: seq<Transaction>)
    requires txs != []
    ensures var kept, front, t := Filter(keep, txs), Filter(keep, txs[..|txs| - 1]), txs[|txs| - 1];
            if keep(t) then kept != [] && kept[..|kept| - 1] == front && kept[|kept| - 1] == t else kept == front
  {
  }

  lemma {:induction false} FilterWithin(price: Transaction -> nat, keep: Transaction -> bool, txs: seq<Transaction>)
    ensures PriceSum(price, Filter(keep, txs)) <= PriceSum(price, txs)
    ensures forall t :: t in Filter(keep, txs) ==> t in txs && keep(t)
    decreases |txs|
  {
    if txs != [] {
      var n := |txs| - 1;
      FilterWithin(price, keep, txs[..n]);
      FilterLast(keep, txs);
    }
  }

  lemma {:induction false} RebuiltSkips(pool: PoolRules, ctx: BatchContext, base: State, keep: Transaction -> bool, txs: seq<Transaction>)
    requires forall tip: State, t: Transaction :: !keep(t) ==> pool.admit(ctx, base, tip, t).Err?
    ensures Rebuilt(pool, ctx, base, Filter(keep, txs)) == Rebuilt(pool, ctx, base, txs)
    decreases |txs|
  {
    if txs != [] {
      var n := |txs| - 1;
      RebuiltSkips(pool, ctx, base, keep, txs[..n]);
      FilterLast(keep, txs);
    }
  }

  lemma UncompiledNotAdmitted(rules: Rules, hash: Transaction -> Digest, ctx: BatchContext, base: State)
    ensures forall tip: State, t: Transaction :: !CompilesIn(rules, ctx)(t) ==> PoolOf(rules, hash).admit(ctx, base, tip, t).Err?
  {
    forall tip: State, t: Transaction | !CompilesIn(rules, ctx)(t) ensures PoolOf(rules, hash).admit(ctx, base, tip, t).Err? {
      assert [t][..0] == [];
      LastDecides(CompilerOf(rules, ctx), StepOf(rules.crypto), WithMarketOf(rules.crypto, base, tip), [t]);
    }
  }

  lemma FittingBatchSeals(rules: Rules, hash: Transaction -> Digest, ctx: BatchContext, s: State,
                          slots: set<Slot>, w: FeeMarket, txs: seq<Transaction>)
    requires Fits(rules, ctx, s, slots, w, txs) && txs != []
    ensures var r, kept := Seal(ExecOf(rules, ctx, s), txs), Rebuilt(PoolOf(rules, hash), ctx, s, txs).0;
            && (r.Broken? <==> kept != Filter(CompilesIn(rules, ctx), txs))
            && (r.Sealed? && r.txs == txs <==> kept == txs)
  {
    var keep := CompilesIn(rules, ctx);
    var left := Filter(keep, txs);
    FilterWithin(PriceOf, keep, txs);
    UncompiledNotAdmitted(rules, hash, ctx, s);
    RebuiltSkips(PoolOf(rules, hash), ctx, s, keep, txs);
    PrefixExecutesIff(rules, hash, ctx, s, slots, w, left);
    PrefixExecutesIff(rules, hash, ctx, s, slots, w, txs);
    SealDropsUncompilable(CompilerOf(rules, ctx), StepOf(rules.crypto), s, txs);
    if Seal(ExecOf(rules, ctx, s), txs).Sealed? {
      SealedExecutes(ExecOf(rules, ctx, s), txs);
    }
  }

  /** The exact condition. A batch as `produce` cuts it, sealed as `produce` seals it, is reported as
      failing if and only if the pool, admitting the batch again in the block's own context, would
      drop some transaction that compiles; and it becomes a block whole if and only if the pool would
      drop nothing. */
  lemma CutPrefixSealsIff(rules: Rules, hash: Transaction -> Digest, s: State, timestamp: nat, recipient: Bytes32,
                          slots: set<Slot>, txs: seq<Transaction>)
    requires Separates(rules.crypto, slots) && FeeMarketSlot in slots && timestamp <= U64_MAX
    requires MarketAt(rules.crypto, s).Ok? && MarketAt(rules.crypto, s).value.windowTs <= timestamp
    requires At(MarketAt(rules.crypto, s).value, timestamp) != Err(GasOverflow)
    requires FeesFit(rules, s, timestamp, recipient, slots, txs) && txs != []
    ensures var ctx := ContextAt(rules.crypto, s, timestamp, recipient);
            var r, kept := Seal(ExecOf(rules, ctx, s), txs), Rebuilt(PoolOf(rules, hash), ctx, s, txs).0;
            && (r.Broken? <==> kept != Filter(CompilesIn(rules, ctx), txs))
            && (r.Sealed? && r.txs == txs <==> kept == txs)
  {
    var w := WindowAt(MarketOrGenesis(rules.crypto, s), timestamp);
    RollsUnlessOverflow(MarketAt(rules.crypto, s).value, timestamp);
    FittingBatchSeals(rules, hash, ContextAt(rules.crypto, s, timestamp, recipient), s, slots, w, txs);
  }

  // ----- and that it can: a dropped nonce

  lemma {:induction false} FilterLoses(per: Per, keep: Transaction -> bool, txs: seq<Transaction>)
    ensures |Flat(per, Filter(keep, txs))| <= |Flat(per, txs)|
    ensures (exists t :: t in txs && !keep(t) && per(t) != []) ==> |Flat(per, Filter(keep, txs))| < |Flat(per, txs)|
    decreases |txs|
  {
    if txs != [] {
      var n := |txs| - 1;
      FilterLoses(per, keep, txs[..n]);
      FlatAppend(per, Filter(keep, txs[..n]), if keep(txs[n]) then [txs[n]] else []);
      assert [txs[n]][..0] == [] && forall t :: t in txs ==> t in txs[..n] || t == txs[n];
    }
  }

  /** A transaction that is kept comes after what is kept of those before it. */
  lemma {:induction false} FilterAt(keep: Transaction -> bool, txs: seq<Transaction>, q: nat)
    requires q < |txs| && keep(txs[q])
    ensures var k, kept := |Filter(keep, txs[..q])|, Filter(keep, txs);
            k < |kept| && kept[..k] == Filter(keep, txs[..q]) && kept[k] == txs[q]
    decreases |txs|
  {
    var n := |txs| - 1;
    FilterLast(keep, txs);
    if q < n {
      FilterAt(keep, txs[..n], q);
      assert txs[..n][..q] == txs[..q];
    }
  }

  /** Leaving out an entry puts a later one in the wrong place. */
  lemma GapNotConsecutive(per: Per, keep: Transaction -> bool, txs: seq<Transaction>, from: nat, p: nat, q: nat, n: nat)
    requires Consecutive(Flat(per, txs), from) && p < q < |txs| && per(txs[p]) != [] && per(txs[q]) == [n]
    requires !keep(txs[p]) && keep(txs[q])
    ensures !Consecutive(Flat(per, Filter(keep, txs)), from)
  {
    assert txs[..q][p] in txs[..q];
    FilterLoses(per, keep, txs[..q]);
    FlatAt(per, txs, q, n);
    FilterAt(keep, txs, q);
    FlatAt(per, Filter(keep, txs), |Filter(keep, txs[..q])|, n);
  }

  /** Every transaction that compiles touches only slots kept apart. */
  ghost predicate KeepsApart(rules: Rules, ctx: BatchContext, slots: set<Slot>, txs: seq<Transaction>) {
    Separates(rules.crypto, slots) &&
    forall t :: t in txs && Compile(rules, t, ctx).Ok? ==>
      Touches(Compile(rules, t, ctx).value, slots) && AssetsFit(Compile(rules, t, ctx).value)
  }

  lemma ExecutedNonces(rules: Rules, ctx: BatchContext, s: State, slots: set<Slot>, txs: seq<Transaction>, x: Bytes32)
    requires KeepsApart(rules, ctx, slots, txs) && AccountSlot(x) in slots && ExecuteBatch(rules, ctx, s, txs).Ok?
    ensures Consecutive(Flat(NonceOf(x), txs), AccountAt(rules.crypto, s, x).nonce)
  {
    var compile, ins := CompilerOf(rules, ctx), ExecuteBatch(rules, ctx, s, txs).value.1.instructions;
    BatchIsHonest(compile, StepOf(rules.crypto), s, txs);
    forall i | i in ins ensures SlotOf(i) in slots && (i.Debit? || i.Credit? ==> i.asset <= U32_MAX) {
      var t := ProgramFrom(compile, txs, i);
      assert Compile(rules, t, ctx).Ok?;
    }
    var bs := [Batch(ctx, txs)];
    assert bs[..0] == [] && AllTxs(bs) == txs;
    NoncesInOrder(rules, s, bs, slots, x);
  }

  /** Dropping a transaction that stopped compiling fails the batch whenever its sender has a later
      one in it that compiles: that one's nonce comes too early, and the failure is a step's. */
  lemma DroppedNonceBreaks(rules: Rules, ctx: BatchContext, s: State, slots: set<Slot>, txs: seq<Transaction>, p: nat, q: nat)
    requires KeepsApart(rules, ctx, slots, txs) && p < q < |txs| && txs[p].sender == txs[q].sender
    requires AccountSlot(txs[p].sender) in slots
    requires Consecutive(Flat(NonceOf(txs[p].sender), txs), AccountAt(rules.crypto, s, txs[p].sender).nonce)
    requires Compile(rules, txs[p], ctx).Err? && Compile(rules, txs[q], ctx).Ok?
    ensures Seal(ExecOf(rules, ctx, s), txs).Broken?
  {
    var keep, x := CompilesIn(rules, ctx), txs[p].sender;
    var left := Filter(keep, txs);
    FilterWithin(PriceOf, keep, txs);
    FilterAt(keep, txs, q);
    GapNotConsecutive(NonceOf(x), keep, txs, AccountAt(rules.crypto, s, x).nonce, p, q, txs[q].nonce);
    if ExecuteBatch(rules, ctx, s, left).Ok? {
      ExecutedNonces(rules, ctx, s, slots, left, x);
    }
    SealDropsUncompilable(CompilerOf(rules, ctx), StepOf(rules.crypto), s, txs);
  }
}
