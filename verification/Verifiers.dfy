/** The verifier node: re-executing published blocks, what it keeps to play a dispute with, and what
    becomes of a block that does not execute. */
module Verifiers {
  import opened Digests
  import opened TrieTree
  import opened MerkleTries
  import opened Machine
  import opened Wire
  import opened Traces
  import opened Execution
  import opened Bisection
  import opened Disputes
  import opened Assertions
  import opened Sequencers

  datatype Outcome = Accepted | Divergent(finding: Finding) | Unexecutable(reason: BatchError<CompileError>)

  /** A trace to play, and the trie it started from. */
  datatype Player = Player(trace: Trace, pre: MerkleTrie)

  function ContextOf(block: Block): BatchContext {
    BatchContext(block.timestamp, block.baseFee, block.feeRecipient)
  }

  /** The dispute a player of a trace opens against an assertion. */
  function OpeningOf(tr: Trace, challenger: nat, id: Digest, a: Assertion, window: nat): Opening
    requires |tr.states| > 0
  {
    Opening(id, a.proposer, challenger, a.traceLength, CommitmentAt(tr, 0), ClaimedEnd(a.postStateRoot, a.traceLength), window)
  }

  class Verifier {
    var state: MerkleTrie
    var player: Option<Player>
    const rules: Rules
    const identity: nat

    ghost predicate Valid()
      reads this, state, if player.Some? then {player.value.pre} else {}
    {
      && state.Valid()
      && (player.Some? ==>
            player.value.pre.Valid() && Honest(StepOf(rules.crypto), player.value.pre.Now(), player.value.trace))
    }

    constructor (genesis: MerkleTrie, identity: nat, rules: Rules)
      requires genesis.Valid()
      ensures Valid() && state == genesis && player == None && this.rules == rules && this.identity == identity
    {
      state, player, this.rules, this.identity := genesis, None, rules, identity;
    }

    /** Re-executes a block and compares. The replica moves exactly on agreement; the player becomes
        the block's own whenever the block executes, and stays what it was when it does not. */
    method Follow(block: Block, a: Assertion) returns (r: Outcome)
      requires Valid()
      modifies this`state, this`player
      ensures Valid()
      ensures match ExecuteBatch(rules, ContextOf(block), old(state.Now()), block.txs)
              case Err(e) => r == Outcome.Unexecutable(e) && state == old(state) && player == old(player)
              case Ok((s, tr)) =>
                && player.Some? && player.value.trace == tr && player.value.pre.Now() == old(state.Now())
                && |tr.states| > 0
                && var finding := CheckAssertion(a.postStateRoot, a.traceLength, tr);
                   if finding.Agrees? then r == Accepted && state.Now() == s else r == Divergent(finding) && state == old(state)
    {
      ghost var s0 := state.Now();
      var pre := state.Clone();
      var next := state.Clone();
      var executed := ExecuteBatchOn(rules, ContextOf(block), next, block.txs);
      if executed.Err? {
        return Outcome.Unexecutable(executed.error);
      }
      BatchIsHonest(CompilerOf(rules, ContextOf(block)), StepOf(rules.crypto), s0, block.txs);
      player := Some(Player(executed.value, pre));
      var finding := CheckAssertion(a.postStateRoot, a.traceLength, executed.value);
      if !finding.Agrees? {
        return Divergent(finding);
      }
      state := next;
      return Accepted;
    }

    /** Opens a dispute from the player it has, whichever block that is of. */
    method OpenDispute(id: Digest, a: Assertion, window: nat, now: nat) returns (d: Option<Dispute>)
      requires Valid()
      ensures d.Some? <==> player.Some?
      ensures d.Some? ==> fresh(d.value) && d.value.Now() == Open(OpeningOf(player.value.trace, identity, id, a, window), now)
    {
      if player.None? {
        return None;
      }
      var dispute := new Dispute(OpeningOf(player.value.trace, identity, id, a, window), now);
      return Some(dispute);
    }
  }

  lemma AgreesAtEnd(step: Step, s: State, post: State, tr: Trace, postRoot: Digest, traceLength: nat)
    requires Reached(step, s, post, tr)
    ensures CheckAssertion(postRoot, traceLength, tr).Agrees? <==> postRoot == post.root && traceLength == |tr.instructions|
  {
    assert tr.instructions[..|tr.instructions|] == tr.instructions;
    assert RecordedAt(step, s, tr, |tr.instructions|);
  }

  /** A verifier accepts exactly the assertion of what the block's transactions really do: that they
      execute, to the root claimed, in as many steps as claimed. */
  lemma AcceptsIff(rules: Rules, block: Block, a: Assertion, s: State)
    requires ExecuteBatch(rules, ContextOf(block), s, block.txs).Ok?
    ensures var (post, tr) := ExecuteBatch(rules, ContextOf(block), s, block.txs).value;
            && |tr.states| > 0
            && (CheckAssertion(a.postStateRoot, a.traceLength, tr).Agrees? <==>
                  a.postStateRoot == post.root && a.traceLength == |tr.instructions|)
  {
    BatchIsHonest(CompilerOf(rules, ContextOf(block)), StepOf(rules.crypto), s, block.txs);
    var (post, tr) := ExecuteBatch(rules, ContextOf(block), s, block.txs).value;
    AgreesAtEnd(StepOf(rules.crypto), s, post, tr, a.postStateRoot, a.traceLength);
  }

  /** A player opens a dispute at a state if and only if its own trace started there: one left over
      from an earlier block does not open the dispute of a block that did not execute. */
  lemma OpensAtItsOwnStart(step: Step, pre: State, tr: Trace, s: State, challenger: nat, id: Digest, a: Assertion, window: nat)
    requires Honest(step, pre, tr)
    ensures OpeningOf(tr, challenger, id, a, window).loCommitment == Commitment(MachineState(s.root, 0)) <==> pre.root == s.root
  {
    assert RecordedAt(step, pre, tr, 0);
    assert tr.instructions[..0] == [];
  }

  // ----- a block that does not execute

  /** Position `n` of `ins` is the first that fails, with `e`. */
  ghost predicate FailsAt(step: Step, s: State, ins: seq<Instruction>, n: nat, e: StepError) {
    && n < |ins| && Replay(step, s, ins[..n]).Ok?
    && step(Replay(step, s, ins[..n]).value, ins[n]) == Err(e)
  }

  lemma FailsAtLonger(step: Step, s: State, a: seq<Instruction>, b: seq<Instruction>, n: nat, e: StepError)
    requires FailsAt(step, s, a, n, e)
    ensures FailsAt(step, s, a + b, n, e)
  {
    assert (a + b)[..n] == a[..n];
  }

  lemma {:induction false} StepsFailAt<E>(step: Step, s: State, t: State, tr: Trace, ins: seq<Instruction>, index: nat)
    requires Reached(step, s, t, tr) && Steps<E>(step, t, tr, ins, index).Err?
    ensures var e := Steps<E>(step, t, tr, ins, index).error;
            e.StepFailed? && FailsAt(step, s, tr.instructions + ins, e.step, e.failure)
    decreases |ins|
  {
    var n := |ins| - 1;
    var front, last := ins[..n], [ins[n]];
    assert tr.instructions + ins == tr.instructions + front + last;
    if Steps<E>(step, t, tr, front, index).Err? {
      StepsFailAt<E>(step, s, t, tr, front, index);
      var e := Steps<E>(step, t, tr, front, index).error;
      FailsAtLonger(step, s, tr.instructions + front, last, e.step, e.failure);
    } else {
      StepsReach<E>(step, s, t, tr, front, index);
      assert (tr.instructions + ins)[..|tr.instructions + front|] == tr.instructions + front;
    }
  }

  /** The step a failed batch names is the first of its program that fails. */
  lemma {:induction false} BatchFailsAt<E>(compile: Compiler<E>, step: Step, s: State, txs: seq<Transaction>)
    requires RunBatch(compile, step, s, txs).Err? && Program(compile, txs).Ok?
    ensures var e := RunBatch(compile, step, s, txs).error;
            e.StepFailed? && FailsAt(step, s, Program(compile, txs).value, e.step, e.failure)
    decreases |txs|
  {
    var n := |txs| - 1;
    var front, ins := Program(compile, txs[..n]).value, compile(txs[n]).value;
    if RunBatch(compile, step, s, txs[..n]).Err? {
      BatchFailsAt(compile, step, s, txs[..n]);
      var e := RunBatch(compile, step, s, txs).error;
      FailsAtLonger(step, s, front, ins, e.step, e.failure);
    } else {
      BatchIsHonest(compile, step, s, txs[..n]);
      var r := RunBatch(compile, step, s, txs[..n]).value;
      StartKeepsReached(step, s, r.0, r.1);
      StepsFailAt<E>(step, s, r.0, MarkStart(r.1), ins, n);
    }
  }

  /** A dispute narrowed to a step, from the state the program really reaches there. */
  ghost predicate AtFailingStep(g: Game, s: State, n: nat) {
    g.stage.OneStep? && g.lo == n && g.loCommitment == Commitment(MachineState(s.root, n))
  }

  /** The proof is about that state, and its witness proves the slot of the step there. */
  ghost predicate Proves(crypto: Crypto, s: State, n: nat, i: Instruction, proof: OneStepProof) {
    proof.preState == MachineState(s.root, n) && CheckWitness(s.root, Where(crypto, i), proof.evidence).Ok?
  }

  /** Whoever defends a block that does not execute loses at its first failing step: whatever end is
      claimed, a proof is ruled for the challenger if and only if it is sound, for the reason that the
      step is not executable; and a sound proof exists. */
  lemma UnexecutableBlockRefuted(rules: Rules, ctx: BatchContext, pre: State, txs: seq<Transaction>, program: seq<Instruction>)
    returns (s: State)
    requires Commits(pre) && ExecuteBatch(rules, ctx, pre, txs).Err? && Program(CompilerOf(rules, ctx), txs) == Ok(program)
    ensures var e := ExecuteBatch(rules, ctx, pre, txs).error;
            && e.StepFailed? && e.step < |program| && Replay(StepOf(rules.crypto), pre, program[..e.step]) == Ok(s)
            && (forall g: Game, proof: OneStepProof :: AtFailingStep(g, s, e.step) ==>
                  var verdict := Adjudicate(rules.crypto, program, g, proof);
                  if Proves(rules.crypto, s, e.step, program[e.step], proof)
                  then verdict == Verdict(Challenger, StepIsNotExecutable(e.failure)) else verdict.winner == Defender)
            && Proves(rules.crypto, s, e.step, program[e.step],
                      OneStepProof(MachineState(s.root, e.step), HonestWitness(s, Where(rules.crypto, program[e.step]))))
  {
    BatchFailsAt(CompilerOf(rules, ctx), StepOf(rules.crypto), pre, txs);
    var e := ExecuteBatch(rules, ctx, pre, txs).error;
    s := Replay(StepOf(rules.crypto), pre, program[..e.step]).value;
    ReplayCommits(rules.crypto, pre, program[..e.step]);
    HonestWitnessAccepted(s, Where(rules.crypto, program[e.step]));
    forall g: Game, proof: OneStepProof | AtFailingStep(g, s, e.step)
      ensures var verdict := Adjudicate(rules.crypto, program, g, proof);
              if Proves(rules.crypto, s, e.step, program[e.step], proof)
              then verdict == Verdict(Challenger, StepIsNotExecutable(e.failure)) else verdict.winner == Defender
    {
      StatelessRefinesStateful(rules.crypto, s, e.step, program[e.step], proof.evidence);
    }
  }
}
