/** The honest trace player, one-step adjudication, and who wins a dispute between them. */
module Disputes {
  import opened Digests
  import opened Arith
  import opened TrieTree
  import opened MerkleTries
  import opened Machine
  import opened Wire
  import opened Traces
  import opened Execution
  import opened Bisection
  import opened BisectionRuns
  import opened HonestPlay

  datatype OneStepProof = OneStepProof(preState: MachineState, evidence: StepWitness)

  datatype VerdictReason =
    | DefenderClaimConfirmed
    | DefenderClaimRefuted
    | StepIsNotExecutable(error: StepError)
    | ProofContradictsAgreedState
    | WitnessRejected(fault: StepError)
    | TraceLengthOverstated(step: nat, programLength: nat)

  datatype Verdict = Verdict(winner: Party, reason: VerdictReason)

  // ----- the player

  /** The player's state at a position; past its trace, its final state. */
  function StateAt(tr: Trace, step: nat): MachineState
    requires |tr.states| > 0
  {
    if step < |tr.states| then tr.states[step] else tr.states[|tr.states| - 1]
  }

  function CommitmentAt(tr: Trace, step: nat): Digest
    requires |tr.states| > 0
  {
    Commitment(StateAt(tr, step))
  }

  function CommitmentsOf(tr: Trace): Commit
    requires |tr.states| > 0
  {
    (step: nat) => CommitmentAt(tr, step)
  }

  /** The proof for the disputed step, if the dispute is at one and the player's trace has it. */
  function ProofFor(crypto: Crypto, tr: Trace, pre: State, g: Game): Option<OneStepProof>
    requires |tr.states| > 0
  {
    if !g.stage.OneStep? || g.lo >= |tr.instructions| then None
    else match Replay(StepOf(crypto), pre, tr.instructions[..g.lo])
      case Err(_) => None
      case Ok(s) => Some(OneStepProof(StateAt(tr, g.lo), HonestWitness(s, Where(crypto, tr.instructions[g.lo]))))
  }

  /** A copy of the trie after some instructions, or nothing if one of them fails. */
  method ReplayOn(crypto: Crypto, pre: MerkleTrie, ins: seq<Instruction>) returns (ok: bool, replay: MerkleTrie)
    requires pre.Valid()
    ensures fresh(replay) && replay.Valid()
    ensures ok <==> Replay(StepOf(crypto), pre.Now(), ins).Ok?
    ensures ok ==> Replay(StepOf(crypto), pre.Now(), ins) == Ok(replay.Now())
  {
    replay := pre.Clone();
    ghost var s0, step := pre.Now(), StepOf(crypto);
    for i := 0 to |ins|
      invariant fresh(replay) && replay.Valid()
      invariant Replay(step, s0, ins[..i]) == Ok(replay.Now())
    {
      assert ins[..i + 1][..i] == ins[..i];
      var applied := ApplyTo(crypto, replay, ins[i]);
      if applied.Err? {
        ReplayFails(step, s0, ins, i + 1);
        return false, replay;
      }
    }
    assert ins[..|ins|] == ins;
    ok := true;
  }

  /** `one_step_proof`: replays a copy of the pre-state up to the step and proves its slot there. */
  method BuildProof(crypto: Crypto, tr: Trace, pre: MerkleTrie, g: Game) returns (p: Option<OneStepProof>)
    requires pre.Valid() && |tr.states| > 0
    ensures p == ProofFor(crypto, tr, pre.Now(), g)
  {
    if !g.stage.OneStep? || g.lo >= |tr.instructions| {
      return None;
    }
    var ok, replay := ReplayOn(crypto, pre, tr.instructions[..g.lo]);
    if !ok {
      return None;
    }
    var slot := Where(crypto, tr.instructions[g.lo]);
    var proof := replay.Prove(slot);
    var value := if slot in replay.values then Some(replay.values[slot]) else None;
    return Some(OneStepProof(StateAt(tr, g.lo), StepWitness(slot, value, proof)));
  }

  datatype PlayError = MoveRefused(move: MoveError) | NoDisagreement

  /** The move this player makes in a role, or why it makes none. */
  function PlayedMove(tr: Trace, g: Game, role: Party, now: nat): Result<Move, PlayError>
    requires |tr.states| > 0 && Playable(g)
  {
    if role.Defender? then Ok(Dissects(now, InteriorOf(CommitmentsOf(tr), g)))
    else if !g.stage.Bisecting? || g.stage.offered.None? then Err(MoveRefused(WrongStage))
    else match FirstDisagreement(CommitmentsOf(tr), g, g.stage.offered.value)
      case Some(i) => Ok(Selects(now, i))
      case None => Err(NoDisagreement)
  }

  /** What the dispute answers to a move. */
  function Answer(g: Game, m: Move): Result<(), MoveError>
    requires Playable(g) && (m.Dissects? || m.Selects?)
  {
    if m.Dissects? then Dissect(g, m.now, m.commitments).1 else Select(g, m.now, m.index).1
  }

  /** `play`: this player's move in whichever role it holds. Without a move to make, at one step in
      particular, the dispute is unchanged and the reason returned; otherwise the dispute is played
      and its answer passed on. */
  method TakeTurn(tr: Trace, d: Dispute, role: Party, now: nat) returns (r: Result<(), PlayError>)
    requires |tr.states| > 0 && Playable(d.Now())
    modifies d
    ensures Playable(d.Now())
    ensures match PlayedMove(tr, old(d.Now()), role, now)
            case Err(e) => r == Err(e) && d.Now() == old(d.Now())
            case Ok(m) =>
              && d.Now() == Play(old(d.Now()), m)
              && r == match Answer(old(d.Now()), m) { case Ok(_) => Ok(()) case Err(e) => Err(MoveRefused(e)) }
  {
    if role.Defender? {
      var moved := d.DissectMove(now, InteriorOf(CommitmentsOf(tr), d.Now()));
      return if moved.Err? then Err(MoveRefused(moved.error)) else Ok(());
    }
    if !d.stage.Bisecting? || d.stage.offered.None? {
      return Err(MoveRefused(WrongStage));
    }
    var found := FirstDisagreement(CommitmentsOf(tr), d.Now(), d.stage.offered.value);
    if found.None? {
      return Err(NoDisagreement);
    }
    var moved := d.SelectMove(now, found.value);
    return if moved.Err? then Err(MoveRefused(moved.error)) else Ok(());
  }

  /** The turns the honest-party theorems play are the ones the player takes. */
  lemma TurnsAgree(tr: Trace, finish: Game -> Option<Party>, judge: Judge, g: Game, now: nat)
    requires |tr.states| > 0 && Playable(g)
    ensures PlayedMove(tr, g, Defender, now) == Ok(DefenderMove(CommitmentsOf(tr), judge, g, DefenderActs(now)))
    ensures !g.stage.OneStep? ==>
              var m := ChallengerMove(CommitmentsOf(tr), finish, g, ChallengerActs(now));
              if PlayedMove(tr, g, Challenger, now).Ok? then m == PlayedMove(tr, g, Challenger, now).value else Play(g, m) == g
  {
  }

  // ----- adjudication

  /** How L1 settles the one step left, against the program it derives from the published batch. */
  function Adjudicate(crypto: Crypto, program: seq<Instruction>, g: Game, proof: OneStepProof): Verdict
    requires g.stage.OneStep?
  {
    if Commitment(proof.preState) != g.loCommitment then Verdict(Defender, ProofContradictsAgreedState)
    else if g.lo >= |program| then Verdict(Challenger, TraceLengthOverstated(g.lo, |program|))
    else match VerifyStep(crypto, proof.preState, program[g.lo], proof.evidence)
      case Ok(post) =>
        if Commitment(post) == g.hiCommitment then Verdict(Defender, DefenderClaimConfirmed)
        else Verdict(Challenger, DefenderClaimRefuted)
      case Err(e) =>
        if WitnessFault(e) then Verdict(Defender, WitnessRejected(e)) else Verdict(Challenger, StepIsNotExecutable(e))
  }

  function JudgeOf(crypto: Crypto, program: seq<Instruction>): Judge {
    (g: Game, proof: OneStepProof) =>
      if g.stage.OneStep? then Adjudicate(crypto, program, g, proof).winner else Defender
  }

  type Judge = (Game, OneStepProof) -> Party

  /** The challenger submits its own proof, if it has one, and L1 rules. */
  function FinishOf(judge: Judge, crypto: Crypto, tr: Trace, pre: State): Game -> Option<Party>
    requires |tr.states| > 0
  {
    (g: Game) =>
      match ProofFor(crypto, tr, pre, g)
      case None => None
      case Some(proof) => Some(judge(g, proof))
  }

  /** An honest player's whole knowledge: a real execution from a committed trie, short enough to
      be counted in a `u64`. */
  ghost predicate Informed(crypto: Crypto, pre: State, tr: Trace) {
    Commits(pre) && Honest(StepOf(crypto), pre, tr) && |tr.instructions| <= U64_MAX
  }

  /** The state before step `i` of an honest trace, and what the step does to it. */
  lemma StepOfTrace(crypto: Crypto, pre: State, tr: Trace, i: nat) returns (s: State)
    requires Informed(crypto, pre, tr) && i < |tr.instructions|
    ensures Replay(StepOf(crypto), pre, tr.instructions[..i]) == Ok(s) && Commits(s)
    ensures StateAt(tr, i) == MachineState(s.root, i)
    ensures Apply(crypto, s, tr.instructions[i]).Ok?
    ensures StateAt(tr, i + 1) == MachineState(Apply(crypto, s, tr.instructions[i]).value.root, i + 1)
  {
    s := StepBetween(StepOf(crypto), pre, tr, i);
    ReplayCommits(crypto, pre, tr.instructions[..i]);
    assert StepOf(crypto)(s, tr.instructions[i]) == Apply(crypto, s, tr.instructions[i]);
  }

  /** A dispute at one step of the trace whose starting state is the honest one. */
  ghost predicate AtStep(tr: Trace, g: Game)
    requires |tr.states| > 0
  {
    g.stage.OneStep? && g.hi == g.lo + 1 <= |tr.instructions| && g.loCommitment == CommitmentAt(tr, g.lo)
  }

  /** The proof is about the honest pre-state and its witness proves the slot there. */
  ghost predicate SoundProof(crypto: Crypto, tr: Trace, g: Game, proof: OneStepProof)
    requires |tr.states| > 0 && AtStep(tr, g)
  {
    && proof.preState == StateAt(tr, g.lo)
    && CheckWitness(proof.preState.stateRoot, Where(crypto, tr.instructions[g.lo]), proof.evidence).Ok?
  }

  /** A judge that confirms exactly the honest post-state: a sound proof is ruled for the defender
      if and only if the defender's claim is the honest one, anything else for the defender. */
  ghost predicate Exact(judge: Judge, crypto: Crypto, tr: Trace)
    requires |tr.states| > 0
  {
    forall g: Game, proof: OneStepProof :: AtStep(tr, g) ==>
      (judge(g, proof).Defender? <==> SoundProof(crypto, tr, g, proof) ==> g.hiCommitment == CommitmentAt(tr, g.hi))
  }

  /** L1 is exact, and never finds a step of an honest trace unexecutable. */
  lemma AdjudicationIsExact(crypto: Crypto, pre: State, tr: Trace, g: Game, proof: OneStepProof)
    requires Informed(crypto, pre, tr) && AtStep(tr, g)
    ensures var verdict := Adjudicate(crypto, tr.instructions, g, proof);
            && (verdict.winner.Defender? <==> SoundProof(crypto, tr, g, proof) ==> g.hiCommitment == CommitmentAt(tr, g.hi))
            && !verdict.reason.StepIsNotExecutable?
  {
    var s := StepOfTrace(crypto, pre, tr, g.lo);
    if Commitment(proof.preState) == g.loCommitment {
      StatelessRefinesStateful(crypto, s, g.lo, tr.instructions[g.lo], proof.evidence);
    }
  }

  lemma JudgeIsExact(crypto: Crypto, pre: State, tr: Trace)
    requires Informed(crypto, pre, tr)
    ensures Exact(JudgeOf(crypto, tr.instructions), crypto, tr)
  {
    forall g: Game, proof: OneStepProof | AtStep(tr, g)
      ensures JudgeOf(crypto, tr.instructions)(g, proof).Defender? <==>
              SoundProof(crypto, tr, g, proof) ==> g.hiCommitment == CommitmentAt(tr, g.hi)
    {
      AdjudicationIsExact(crypto, pre, tr, g, proof);
    }
  }

  /** The honest proof exists and is sound whenever the disputed step is inside the trace. */
  lemma HonestProofIsSound(crypto: Crypto, pre: State, tr: Trace, g: Game)
    requires Informed(crypto, pre, tr) && AtStep(tr, g)
    ensures ProofFor(crypto, tr, pre, g).Some?
    ensures SoundProof(crypto, tr, g, ProofFor(crypto, tr, pre, g).value)
  {
    var s := StepOfTrace(crypto, pre, tr, g.lo);
    HonestWitnessAccepted(s, Where(crypto, tr.instructions[g.lo]));
  }

  lemma NoProofPastTrace(judge: Judge, crypto: Crypto, pre: State, tr: Trace, g: Game)
    requires |tr.states| > 0 && |tr.instructions| <= g.lo
    ensures FinishOf(judge, crypto, tr, pre)(g) == None
  {
    assert ProofFor(crypto, tr, pre, g) == None;
  }

  lemma SoundProofWins(judge: Judge, crypto: Crypto, tr: Trace, g: Game, proof: OneStepProof)
    requires |tr.states| > 0 && Exact(judge, crypto, tr)
    requires AtStep(tr, g) && SoundProof(crypto, tr, g, proof) && g.hiCommitment != CommitmentAt(tr, g.hi)
    ensures judge(g, proof) == Challenger
  {
    assert !judge(g, proof).Defender?;
  }

  lemma FinishWith(judge: Judge, crypto: Crypto, pre: State, tr: Trace, g: Game, proof: OneStepProof)
    requires |tr.states| > 0 && ProofFor(crypto, tr, pre, g) == Some(proof)
    ensures FinishOf(judge, crypto, tr, pre)(g) == Some(judge(g, proof))
  {
  }

  lemma LastStepWon(judge: Judge, crypto: Crypto, pre: State, tr: Trace, g: Game)
    requires Informed(crypto, pre, tr) && Exact(judge, crypto, tr)
    requires AtStep(tr, g) && g.hiCommitment != CommitmentAt(tr, g.hi)
    ensures FinishOf(judge, crypto, tr, pre)(g) == Some(Challenger)
  {
    HonestProofIsSound(crypto, pre, tr, g);
    var proof := ProofFor(crypto, tr, pre, g).value;
    SoundProofWins(judge, crypto, tr, g, proof);
    FinishWith(judge, crypto, pre, tr, g, proof);
  }

  /** A last step just past the player's trace. */
  function PastTrace(commit: Commit, n: nat): Game {
    Game(Zero, 0, 0, n, n + 1, commit(n), Zero, OneStep, Challenger, 0, 0, 0, 0, 0, DEFAULT_ARITY)
  }

  /** The exact condition under which the trace player wins every last step it reaches in good
      standing: the claimed length is no more than its own trace. */
  lemma WinsLastStepIff(judge: Judge, crypto: Crypto, pre: State, tr: Trace, traceLength: nat)
    requires Informed(crypto, pre, tr) && Exact(judge, crypto, tr)
    ensures WinsLastStep(CommitmentsOf(tr), FinishOf(judge, crypto, tr, pre), traceLength) <==> traceLength <= |tr.instructions|
  {
    var commit := CommitmentsOf(tr);
    if traceLength <= |tr.instructions| {
      forall g: Game |
        g.stage.OneStep? && g.hi == g.lo + 1 <= traceLength && g.loCommitment == commit(g.lo) && g.hiCommitment != commit(g.hi)
        ensures FinishOf(judge, crypto, tr, pre)(g) == Some(Challenger)
      {
        LastStepWon(judge, crypto, pre, tr, g);
      }
    } else {
      NoProofPastTrace(judge, crypto, pre, tr, PastTrace(commit, |tr.instructions|));
    }
  }

  /** Every proof anyone can submit against an honest defender is ruled for the defender. */
  lemma HonestDefenderSurvives(judge: Judge, crypto: Crypto, tr: Trace)
    requires |tr.states| > 0 && Exact(judge, crypto, tr)
    ensures SurvivesEveryProof(CommitmentsOf(tr), judge, |tr.instructions|)
  {
    var commit := CommitmentsOf(tr);
    forall g: Game, proof: OneStepProof |
      g.stage.OneStep? && g.hi == g.lo + 1 <= |tr.instructions| && g.loCommitment == commit(g.lo) && g.hiCommitment == commit(g.hi)
      ensures judge(g, proof) == Defender
    {
      assert AtStep(tr, g);
    }
  }

  // ----- the two headline theorems

  /** A batch, what executing it honestly gives, and the program L1 derives from it. */
  ghost predicate Executes(rules: Rules, ctx: BatchContext, pre: State, txs: seq<Transaction>, tr: Trace) {
    && Commits(pre) && |tr.instructions| <= U64_MAX && |tr.states| > 0
    && ExecuteBatch(rules, ctx, pre, txs).Ok? && ExecuteBatch(rules, ctx, pre, txs).value.1 == tr
  }

  lemma ExecutionInforms(rules: Rules, ctx: BatchContext, pre: State, txs: seq<Transaction>, tr: Trace)
    requires Executes(rules, ctx, pre, txs, tr)
    ensures Informed(rules.crypto, pre, tr) && Program(CompilerOf(rules, ctx), txs) == Ok(tr.instructions)
    ensures Exact(JudgeOf(rules.crypto, tr.instructions), rules.crypto, tr)
  {
    BatchIsHonest(CompilerOf(rules, ctx), StepOf(rules.crypto), pre, txs);
    JudgeIsExact(rules.crypto, pre, tr);
  }

  ghost predicate WonBy(p: Party, g: Game) {
    g.stage.Resolved? && g.stage.winner == p
  }

  lemma InformedChallengerWins(judge: Judge, crypto: Crypto, pre: State, tr: Trace, o: Opening, openedAt: nat,
                               es: seq<ChallengerEvent>, rounds: nat, delay: nat, now: nat)
    requires Informed(crypto, pre, tr) && Exact(judge, crypto, tr) && 1 <= o.traceLength <= |tr.instructions|
    requires o.loCommitment == CommitmentAt(tr, 0) && o.hiCommitment != CommitmentAt(tr, o.traceLength)
    requires Affordable(o, rounds, delay) && openedAt + 3 * ClockBudget(o.challengeWindow) < now
    requires PromptChallenger(CommitmentsOf(tr), FinishOf(judge, crypto, tr, pre), o, openedAt, es + [ClockAsked(now)], delay)
    ensures WonBy(Challenger,
              ChallengerRun(CommitmentsOf(tr), FinishOf(judge, crypto, tr, pre), o, openedAt, es + [ClockAsked(now)]).0)
  {
    WinsLastStepIff(judge, crypto, pre, tr, o.traceLength);
    ChallengerWins(CommitmentsOf(tr), FinishOf(judge, crypto, tr, pre), o, openedAt, es, rounds, delay, now);
  }

  /** An honest challenger cannot lose. Whatever the defender submits and whenever, a challenger
      playing its own execution of the published batch, prompt within a delay its clock can
      afford, has won once three quarters of the window have passed and the clock is asked. */
  lemma HonestChallengerWins(rules: Rules, ctx: BatchContext, pre: State, txs: seq<Transaction>, tr: Trace,
                             program: seq<Instruction>, o: Opening, openedAt: nat,
                             es: seq<ChallengerEvent>, rounds: nat, delay: nat, now: nat)
    requires Executes(rules, ctx, pre, txs, tr) && Program(CompilerOf(rules, ctx), txs) == Ok(program)
    requires 1 <= o.traceLength <= |tr.instructions|
    requires o.loCommitment == CommitmentAt(tr, 0) && o.hiCommitment != CommitmentAt(tr, o.traceLength)
    requires Affordable(o, rounds, delay) && openedAt + 3 * ClockBudget(o.challengeWindow) < now
    requires PromptChallenger(CommitmentsOf(tr), FinishOf(JudgeOf(rules.crypto, program), rules.crypto, tr, pre), o, openedAt, es + [ClockAsked(now)], delay)
    ensures WonBy(Challenger,
              ChallengerRun(CommitmentsOf(tr), FinishOf(JudgeOf(rules.crypto, program), rules.crypto, tr, pre), o, openedAt, es + [ClockAsked(now)]).0)
  {
    ExecutionInforms(rules, ctx, pre, txs, tr);
    InformedChallengerWins(JudgeOf(rules.crypto, program), rules.crypto, pre, tr, o, openedAt, es, rounds, delay, now);
  }

  lemma InformedDefenderWins(judge: Judge, crypto: Crypto, tr: Trace, o: Opening, openedAt: nat,
                             es: seq<DefenderEvent<OneStepProof>>, rounds: nat, delay: nat, now: nat)
    requires |tr.states| > 0 && Exact(judge, crypto, tr) && 1 <= o.traceLength == |tr.instructions|
    requires o.loCommitment == CommitmentAt(tr, 0) && o.hiCommitment == CommitmentAt(tr, o.traceLength)
    requires Affordable(o, rounds, delay) && openedAt + 3 * ClockBudget(o.challengeWindow) < now
    requires PromptDefender(CommitmentsOf(tr), judge, o, openedAt, es + [TimeAsked(now)], delay)
    ensures WonBy(Defender, DefenderRun(CommitmentsOf(tr), judge, o, openedAt, es + [TimeAsked(now)]).0)
  {
    HonestDefenderSurvives(judge, crypto, tr);
    DefenderWins(CommitmentsOf(tr), judge, o, openedAt, es, rounds, delay, now);
  }

  /** An honest defender cannot lose. Whatever the challenger selects and whatever proofs it
      submits, a prompt defender of a batch it really executed has won by the same time. */
  lemma HonestDefenderWins(rules: Rules, ctx: BatchContext, pre: State, txs: seq<Transaction>, tr: Trace,
                           program: seq<Instruction>, o: Opening, openedAt: nat,
                           es: seq<DefenderEvent<OneStepProof>>, rounds: nat, delay: nat, now: nat)
    requires Executes(rules, ctx, pre, txs, tr) && Program(CompilerOf(rules, ctx), txs) == Ok(program)
    requires 1 <= o.traceLength == |tr.instructions|
    requires o.loCommitment == CommitmentAt(tr, 0) && o.hiCommitment == CommitmentAt(tr, o.traceLength)
    requires Affordable(o, rounds, delay) && openedAt + 3 * ClockBudget(o.challengeWindow) < now
    requires PromptDefender(CommitmentsOf(tr), JudgeOf(rules.crypto, program), o, openedAt, es + [TimeAsked(now)], delay)
    ensures WonBy(Defender, DefenderRun(CommitmentsOf(tr), JudgeOf(rules.crypto, program), o, openedAt, es + [TimeAsked(now)]).0)
  {
    ExecutionInforms(rules, ctx, pre, txs, tr);
    InformedDefenderWins(JudgeOf(rules.crypto, program), rules.crypto, tr, o, openedAt, es, rounds, delay, now);
  }

  // ----- when the claimed trace is longer than the real one

  /** A dispute being driven to its last step with nobody spending any time. */
  ghost predicate Driven(commit: Commit, o: Opening, openedAt: nat, g: Game) {
    && g.lo < g.hi == o.traceLength && g.arity == DEFAULT_ARITY
    && g.loCommitment == commit(g.lo) && g.hiCommitment == o.hiCommitment
    && g.clockBudget == ClockBudget(o.challengeWindow)
    && g.lastMoveAt == openedAt && g.deadline == SaturatingAdd(openedAt, Allowance(g.clockBudget))
    && (if g.hi == g.lo + 1 then g.stage == OneStep && g.turn == Challenger else g.stage == Bisecting(None) && g.turn == Defender)
  }

  /** Offered its own commitments, the player disputes the last segment. */
  lemma {:induction false} EchoDisputesLast(commit: Commit, bounds: seq<nat>, ends: seq<Digest>, i: nat)
    requires i < |ends| < |bounds|
    requires forall j :: 0 <= j < |ends| - 1 ==> ends[j] == commit(bounds[j + 1])
    requires ends[|ends| - 1] != commit(bounds[|ends|])
    ensures FirstMismatch(commit, bounds, ends, i) == Some(|ends| - 1)
    decreases |ends| - i
  {
    if i < |ends| - 1 {
      EchoDisputesLast(commit, bounds, ends, i + 1);
    }
  }

  /** The dispute after the opponent echoes and before the player answers. */
  ghost predicate Echoed(commit: Commit, o: Opening, openedAt: nat, g: Game) {
    && g.lo + 1 < g.hi == o.traceLength && g.arity == DEFAULT_ARITY
    && g.loCommitment == commit(g.lo) && g.hiCommitment == o.hiCommitment
    && g.clockBudget == ClockBudget(o.challengeWindow)
    && g.lastMoveAt == openedAt && g.deadline == SaturatingAdd(openedAt, Allowance(g.clockBudget))
    && g.stage == Bisecting(Some(InteriorOf(commit, g))) && g.turn.Challenger?
  }

  lemma EchoDissects(commit: Commit, o: Opening, openedAt: nat, s: (Game, nat))
    requires openedAt <= U64_MAX
    requires Playable(s.0) && Driven(commit, o, openedAt, s.0) && s.0.stage.Bisecting?
    ensures var h := After(s, Dissects(openedAt, InteriorOf(commit, s.0))).0;
            Echoed(commit, o, openedAt, h) && h.lo == s.0.lo
  {
    var g := s.0;
    var h := Dissect(g, openedAt, InteriorOf(commit, g)).0;
    assert h.lo == g.lo && h.hi == g.hi && h.arity == g.arity;
    assert InteriorOf(commit, h) == InteriorOf(commit, g);
  }

  lemma EchoFound(commit: Commit, o: Opening, openedAt: nat, g: Game)
    requires Echoed(commit, o, openedAt, g) && o.hiCommitment != commit(o.traceLength)
    ensures FirstDisagreement(commit, g, g.stage.offered.value) == Some(Segments(g.lo, g.hi, g.arity) - 1)
  {
    var b := Boundaries(g.lo, g.hi, g.arity);
    BoundariesIncrease(g.lo, g.hi, g.arity, 0);
    EchoDisputesLast(commit, b, InteriorOf(commit, g) + [g.hiCommitment], 0);
  }

  /** An accepted selection hands the turn over, or to the challenger at the last step. */
  lemma SelectionPasses(g: Game, now: nat, i: nat)
    requires Playable(g) && Select(g, now, i).1.Ok?
    ensures var h := Select(g, now, i).0;
            && h.arity == g.arity && h.lastMoveAt == now && h.deadline == SaturatingAdd(now, Allowance(g.clockBudget))
            && (if h.hi - h.lo == 1 then h.stage == OneStep && h.turn == Challenger else h.stage == Bisecting(None) && h.turn == Defender)
  {
  }

  lemma EchoDriven(commit: Commit, o: Opening, openedAt: nat, g: Game, h: Game)
    requires Playable(g) && Echoed(commit, o, openedAt, g)
    requires NarrowedTo(g, h, Segments(g.lo, g.hi, g.arity) - 1)
    ensures g.lo < h.lo < h.hi == o.traceLength && h.loCommitment == commit(h.lo) && h.hiCommitment == o.hiCommitment
  {
    var n := Segments(g.lo, g.hi, g.arity) - 1;
    BoundariesIncrease(g.lo, g.hi, g.arity, n);
    BoundariesIncrease(g.lo, g.hi, g.arity, n - 1);
    assert AllCommitments(g, InteriorOf(commit, g))[n] == commit(Boundaries(g.lo, g.hi, g.arity)[n]);
  }

  lemma EchoSelects(commit: Commit, o: Opening, openedAt: nat, g: Game)
    requires Playable(g) && Echoed(commit, o, openedAt, g) && openedAt <= U64_MAX
    ensures var h := Select(g, openedAt, Segments(g.lo, g.hi, g.arity) - 1).0; Driven(commit, o, openedAt, h) && g.lo < h.lo
  {
    var n := Segments(g.lo, g.hi, g.arity) - 1;
    SelectionAccepted(g, openedAt, n);
    SelectionPasses(g, openedAt, n);
    EchoDriven(commit, o, openedAt, g, Select(g, openedAt, n).0);
  }

  lemma EchoAnswered(commit: Commit, finish: Game -> Option<Party>, o: Opening, openedAt: nat, s: (Game, nat))
    requires Playable(s.0) && Echoed(commit, o, openedAt, s.0) && o.hiCommitment != commit(o.traceLength) && openedAt <= U64_MAX
    ensures var h := After(s, ChallengerMove(commit, finish, s.0, ChallengerActs(openedAt))).0;
            Driven(commit, o, openedAt, h) && s.0.lo < h.lo
  {
    EchoFound(commit, o, openedAt, s.0);
    EchoSelects(commit, o, openedAt, s.0);
  }

  lemma RunSnoc(commit: Commit, finish: Game -> Option<Party>, o: Opening, openedAt: nat,
                es: seq<ChallengerEvent>, e: ChallengerEvent, delay: nat)
    requires PromptChallenger(commit, finish, o, openedAt, es, delay)
    requires Prompt(ChallengerRun(commit, finish, o, openedAt, es).0, Challenger, e.now, delay)
    ensures PromptChallenger(commit, finish, o, openedAt, es + [e], delay)
    ensures var s := ChallengerRun(commit, finish, o, openedAt, es);
            ChallengerRun(commit, finish, o, openedAt, es + [e]) == After(s, ChallengerMove(commit, finish, s.0, e))
  {
    assert (es + [e])[..|es|] == es;
  }

  /** One round of an opponent that only repeats the player's own commitments back. */
  function Echo(commit: Commit, openedAt: nat, g: Game): seq<ChallengerEvent>
    requires g.lo <= g.hi
  {
    [DefenderMoves(openedAt, InteriorOf(commit, g))] + [ChallengerActs(openedAt)]
  }

  lemma EchoOffer(commit: Commit, finish: Game -> Option<Party>, o: Opening, openedAt: nat, es: seq<ChallengerEvent>, delay: nat)
    requires openedAt <= U64_MAX && PromptChallenger(commit, finish, o, openedAt, es, delay)
    requires var g := ChallengerRun(commit, finish, o, openedAt, es).0;
             Driven(commit, o, openedAt, g) && g.stage.Bisecting?
    ensures var g := ChallengerRun(commit, finish, o, openedAt, es).0;
            var more := es + [DefenderMoves(openedAt, InteriorOf(commit, g))];
            var h := ChallengerRun(commit, finish, o, openedAt, more).0;
            && PromptChallenger(commit, finish, o, openedAt, more, delay)
            && Echoed(commit, o, openedAt, h) && h.lo == g.lo
  {
    var s := ChallengerRun(commit, finish, o, openedAt, es);
    EchoDissects(commit, o, openedAt, s);
    RunSnoc(commit, finish, o, openedAt, es, DefenderMoves(openedAt, InteriorOf(commit, s.0)), delay);
  }

  lemma EchoAnswer(commit: Commit, finish: Game -> Option<Party>, o: Opening, openedAt: nat, es: seq<ChallengerEvent>, delay: nat)
    requires openedAt <= U64_MAX && o.hiCommitment != commit(o.traceLength)
    requires PromptChallenger(commit, finish, o, openedAt, es, delay)
    requires Echoed(commit, o, openedAt, ChallengerRun(commit, finish, o, openedAt, es).0)
    ensures var g := ChallengerRun(commit, finish, o, openedAt, es).0;
            var more := es + [ChallengerActs(openedAt)];
            var h := ChallengerRun(commit, finish, o, openedAt, more).0;
            && PromptChallenger(commit, finish, o, openedAt, more, delay)
            && Driven(commit, o, openedAt, h) && g.lo < h.lo
  {
    EchoAnswered(commit, finish, o, openedAt, ChallengerRun(commit, finish, o, openedAt, es));
    RunSnoc(commit, finish, o, openedAt, es, ChallengerActs(openedAt), delay);
  }

  lemma EchoRound(commit: Commit, finish: Game -> Option<Party>, o: Opening, openedAt: nat, es: seq<ChallengerEvent>, delay: nat)
    requires openedAt <= U64_MAX && o.hiCommitment != commit(o.traceLength)
    requires PromptChallenger(commit, finish, o, openedAt, es, delay)
    requires var g := ChallengerRun(commit, finish, o, openedAt, es).0;
             Driven(commit, o, openedAt, g) && g.stage.Bisecting?
    ensures var g := ChallengerRun(commit, finish, o, openedAt, es).0;
            var more := es + Echo(commit, openedAt, g);
            var h := ChallengerRun(commit, finish, o, openedAt, more).0;
            && PromptChallenger(commit, finish, o, openedAt, more, delay)
            && Driven(commit, o, openedAt, h) && g.lo < h.lo
  {
    var g := ChallengerRun(commit, finish, o, openedAt, es).0;
    var offered := es + [DefenderMoves(openedAt, InteriorOf(commit, g))];
    assert offered + [ChallengerActs(openedAt)] == es + Echo(commit, openedAt, g);
    EchoOffer(commit, finish, o, openedAt, es, delay);
    EchoAnswer(commit, finish, o, openedAt, offered, delay);
  }

  /** An opponent that only echoes brings the dispute to the very last step it claimed. */
  lemma {:induction false} EchoReachesLastStep(commit: Commit, finish: Game -> Option<Party>, o: Opening, openedAt: nat,
                                               es: seq<ChallengerEvent>, delay: nat)
    returns (all: seq<ChallengerEvent>)
    requires openedAt <= U64_MAX && o.hiCommitment != commit(o.traceLength)
    requires PromptChallenger(commit, finish, o, openedAt, es, delay)
    requires Driven(commit, o, openedAt, ChallengerRun(commit, finish, o, openedAt, es).0)
    ensures PromptChallenger(commit, finish, o, openedAt, all, delay)
    ensures var g := ChallengerRun(commit, finish, o, openedAt, all).0;
            Driven(commit, o, openedAt, g) && g.stage.OneStep?
    decreases o.traceLength - ChallengerRun(commit, finish, o, openedAt, es).0.lo
  {
    var g := ChallengerRun(commit, finish, o, openedAt, es).0;
    if g.stage.OneStep? {
      all := es;
    } else {
      EchoRound(commit, finish, o, openedAt, es, delay);
      all := EchoReachesLastStep(commit, finish, o, openedAt, es + Echo(commit, openedAt, g), delay);
    }
  }

  /** The player wins every dispute of this opening it plays promptly. */
  ghost predicate AlwaysWins(commit: Commit, finish: Game -> Option<Party>, o: Opening, openedAt: nat, delay: nat) {
    forall es: seq<ChallengerEvent> :: LateClock(o, openedAt, es) && PromptChallenger(commit, finish, o, openedAt, es, delay) ==>
      WonBy(Challenger, ChallengerRun(commit, finish, o, openedAt, es).0)
  }

  ghost predicate LateClock(o: Opening, openedAt: nat, es: seq<ChallengerEvent>) {
    es != [] && es[|es| - 1].ClockAsked? && openedAt + 3 * ClockBudget(o.challengeWindow) < es[|es| - 1].now
  }

  /** A turn with no proof to submit leaves the last step as it was. */
  lemma NothingToSubmit(commit: Commit, finish: Game -> Option<Party>, s: (Game, nat), now: nat)
    requires Playable(s.0) && s.0.stage.OneStep? && finish(s.0) == None
    ensures After(s, ChallengerMove(commit, finish, s.0, ChallengerActs(now))) == s
  {
  }

  lemma ClockForfeits(s: (Game, nat), now: nat)
    requires Playable(s.0) && s.0.stage.OneStep? && s.0.turn.Challenger? && s.0.deadline < now
    ensures After(s, Expires(now)).0.stage == Resolved(Defender, Timeout)
  {
  }

  /** Stuck at a step outside its own trace, the player forfeits. */
  lemma StalledPlayerLoses(commit: Commit, finish: Game -> Option<Party>, o: Opening, openedAt: nat,
                           es: seq<ChallengerEvent>, delay: nat, now: nat)
    requires PromptChallenger(commit, finish, o, openedAt, es, delay) && openedAt <= U64_MAX && now <= U64_MAX
    requires var g := ChallengerRun(commit, finish, o, openedAt, es).0;
             g.stage.OneStep? && g.turn.Challenger? && g.lastMoveAt == openedAt && g.deadline < now && finish(g) == None
    ensures var all := es + [ChallengerActs(openedAt)] + [ClockAsked(now)];
            && PromptChallenger(commit, finish, o, openedAt, all, delay)
            && ChallengerRun(commit, finish, o, openedAt, all).0.stage == Resolved(Defender, Timeout)
  {
    var s := ChallengerRun(commit, finish, o, openedAt, es);
    var acted := es + [ChallengerActs(openedAt)];
    var all := acted + [ClockAsked(now)];
    NothingToSubmit(commit, finish, s, openedAt);
    RunSnoc(commit, finish, o, openedAt, es, ChallengerActs(openedAt), delay);
    assert acted[..|es|] == es && all[..|acted|] == acted;
    assert Stuck(commit, finish, o, openedAt, acted);
    ClockForfeits(s, now);
  }

  /** The exact condition on the player of the source. Its winning every promptly played dispute
      about a false final claim is equivalent to the claimed length being within its own trace:
      past that it has no proof to submit, although L1 would rule for anyone who did. */
  lemma AlwaysWinsIffLengthWithinTrace(judge: Judge, crypto: Crypto, pre: State, tr: Trace, o: Opening, openedAt: nat, rounds: nat, delay: nat)
    requires Informed(crypto, pre, tr) && Exact(judge, crypto, tr) && 1 <= o.traceLength
    requires o.loCommitment == CommitmentAt(tr, 0) && o.hiCommitment != CommitmentAt(tr, o.traceLength)
    requires Affordable(o, rounds, delay) && openedAt + 3 * ClockBudget(o.challengeWindow) < U64_MAX
    ensures AlwaysWins(CommitmentsOf(tr), FinishOf(judge, crypto, tr, pre), o, openedAt, delay)
        <==> o.traceLength <= |tr.instructions|
  {
    var commit, finish := CommitmentsOf(tr), FinishOf(judge, crypto, tr, pre);
    if o.traceLength <= |tr.instructions| {
      forall es: seq<ChallengerEvent> | LateClock(o, openedAt, es) && PromptChallenger(commit, finish, o, openedAt, es, delay)
        ensures WonBy(Challenger, ChallengerRun(commit, finish, o, openedAt, es).0)
      {
        var now := es[|es| - 1].now;
        assert es == es[..|es| - 1] + [ClockAsked(now)];
        InformedChallengerWins(judge, crypto, pre, tr, o, openedAt, es[..|es| - 1], rounds, delay, now);
      }
    } else {
      OverstatedLengthLoses(judge, crypto, pre, tr, o, openedAt, delay);
    }
  }

  lemma DrivenAtOpen(commit: Commit, finish: Game -> Option<Party>, o: Opening, openedAt: nat, delay: nat)
    requires 1 <= o.traceLength && o.loCommitment == commit(0)
    ensures PromptChallenger(commit, finish, o, openedAt, [], delay)
    ensures Driven(commit, o, openedAt, ChallengerRun(commit, finish, o, openedAt, []).0)
  {
  }

  lemma DrivenDeadline(commit: Commit, o: Opening, openedAt: nat, g: Game)
    requires Driven(commit, o, openedAt, g) && openedAt + 3 * ClockBudget(o.challengeWindow) < U64_MAX
    ensures g.deadline < U64_MAX
  {
  }

  /** A player with nothing to submit at the last step claimed can be led there and left to forfeit. */
  lemma UnansweredStepLoses(commit: Commit, finish: Game -> Option<Party>, o: Opening, openedAt: nat, delay: nat)
    returns (all: seq<ChallengerEvent>)
    requires 1 <= o.traceLength && o.loCommitment == commit(0) && o.hiCommitment != commit(o.traceLength)
    requires openedAt + 3 * ClockBudget(o.challengeWindow) < U64_MAX
    requires forall g: Game :: g.lo == o.traceLength - 1 ==> finish(g) == None
    ensures LateClock(o, openedAt, all) && PromptChallenger(commit, finish, o, openedAt, all, delay)
    ensures WonBy(Defender, ChallengerRun(commit, finish, o, openedAt, all).0)
  {
    DrivenAtOpen(commit, finish, o, openedAt, delay);
    var es := EchoReachesLastStep(commit, finish, o, openedAt, [], delay);
    DrivenDeadline(commit, o, openedAt, ChallengerRun(commit, finish, o, openedAt, es).0);
    StalledPlayerLoses(commit, finish, o, openedAt, es, delay, U64_MAX);
    all := es + [ChallengerActs(openedAt)] + [ClockAsked(U64_MAX)];
  }

  /** Every opening has a dispute played promptly to the end, so winning all of them is no empty claim. */
  lemma PromptRunExists(commit: Commit, finish: Game -> Option<Party>, o: Opening, openedAt: nat, delay: nat)
    returns (all: seq<ChallengerEvent>)
    requires 1 <= o.traceLength && o.loCommitment == commit(0) && o.hiCommitment != commit(o.traceLength)
    requires openedAt + 3 * ClockBudget(o.challengeWindow) < U64_MAX
    ensures LateClock(o, openedAt, all) && PromptChallenger(commit, finish, o, openedAt, all, delay)
  {
    DrivenAtOpen(commit, finish, o, openedAt, delay);
    var es := EchoReachesLastStep(commit, finish, o, openedAt, [], delay);
    RunSnoc(commit, finish, o, openedAt, es, ChallengerActs(openedAt), delay);
    LastTurnTaken(commit, finish, ChallengerRun(commit, finish, o, openedAt, es), openedAt);
    var acted := es + [ChallengerActs(openedAt)];
    all := acted + [ClockAsked(U64_MAX)];
    assert acted[..|es|] == es && all[..|acted|] == acted;
  }

  lemma LastTurnTaken(commit: Commit, finish: Game -> Option<Party>, s: (Game, nat), now: nat)
    requires Playable(s.0) && s.0.stage.OneStep?
    ensures var t := After(s, ChallengerMove(commit, finish, s.0, ChallengerActs(now))); t == s || t.0.stage.Resolved?
  {
  }

  lemma OverstatedLengthLoses(judge: Judge, crypto: Crypto, pre: State, tr: Trace, o: Opening, openedAt: nat, delay: nat)
    requires |tr.states| > 0 && |tr.instructions| < o.traceLength
    requires o.loCommitment == CommitmentAt(tr, 0) && o.hiCommitment != CommitmentAt(tr, o.traceLength)
    requires openedAt + 3 * ClockBudget(o.challengeWindow) < U64_MAX
    ensures !AlwaysWins(CommitmentsOf(tr), FinishOf(judge, crypto, tr, pre), o, openedAt, delay)
  {
    forall g: Game | g.lo == o.traceLength - 1 ensures FinishOf(judge, crypto, tr, pre)(g) == None {
      NoProofPastTrace(judge, crypto, pre, tr, g);
    }
    var es := UnansweredStepLoses(CommitmentsOf(tr), FinishOf(judge, crypto, tr, pre), o, openedAt, delay);
  }

  // ----- what a verifier challenges

  datatype Finding =
    | Agrees
    | RootDiverges(asserted: Digest, computed: Digest)
    | TraceLengthDiverges(assertedLength: nat, computedLength: nat)

  /** An asserted result against the verifier's own trace. */
  function CheckAssertion(postRoot: Digest, traceLength: nat, tr: Trace): Finding
    requires |tr.states| > 0
  {
    var computed := tr.states[|tr.states| - 1].stateRoot;
    if postRoot != computed then RootDiverges(postRoot, computed)
    else if traceLength != |tr.instructions| then TraceLengthDiverges(traceLength, |tr.instructions|)
    else Agrees
  }

  /** The commitment a dispute over an assertion is opened about. */
  function ClaimedEnd(postRoot: Digest, traceLength: nat): Digest {
    Commitment(MachineState(postRoot, traceLength))
  }

  /** A verifier agrees exactly with the assertion whose claimed end is the end of its own trace. */
  lemma AgreesIff(step: Step, pre: State, tr: Trace, postRoot: Digest, traceLength: nat)
    requires Honest(step, pre, tr)
    ensures CheckAssertion(postRoot, traceLength, tr).Agrees? <==> ClaimedEnd(postRoot, traceLength) == CommitmentAt(tr, |tr.instructions|)
  {
    assert RecordedAt(step, pre, tr, |tr.instructions|);
  }

  /** Among the assertions a verifier disagrees with, the end claimed is one its player disputes,
      unless the claim is an honest one cut short. Cut short, the player agrees with the end. */
  lemma DisputableIff(step: Step, pre: State, tr: Trace, postRoot: Digest, traceLength: nat)
    requires Honest(step, pre, tr) && !CheckAssertion(postRoot, traceLength, tr).Agrees?
    ensures ClaimedEnd(postRoot, traceLength) != CommitmentAt(tr, traceLength)
       <==> !(traceLength < |tr.instructions| && postRoot == tr.states[traceLength].stateRoot)
  {
    var n := |tr.instructions|;
    assert RecordedAt(step, pre, tr, n);
    if traceLength <= n {
      assert RecordedAt(step, pre, tr, traceLength);
    }
  }
}
