/** Executing instruction lists and batches, and what the recorded trace says.

    Everything here holds for any single-step function and any compiler; `Execution` supplies
    the real ones. */
module Traces {
  import opened Digests
  import opened TrieTree
  import opened Machine
  import opened Wire

  type Step = (State, Instruction) -> Result<State, StepError>

  /** Every instruction executed, the machine state before each and at the end, and where each
      transaction begins. */
  datatype Trace = Trace(instructions: seq<Instruction>, states: seq<MachineState>, txStarts: seq<nat>)

  datatype BatchError<E> =
    | CompileFailed(index: nat, compile: E)
    | StepFailed(index: nat, step: nat, failure: StepError)

  type Compiler<E> = Transaction -> Result<seq<Instruction>, E>

  function StartTrace(s: State): Trace {
    Trace([], [MachineState(s.root, 0)], [])
  }

  function Push(tr: Trace, i: Instruction, s: State): Trace {
    tr.(instructions := tr.instructions + [i],
        states := tr.states + [MachineState(s.root, |tr.instructions| + 1)])
  }

  function MarkStart(tr: Trace): Trace {
    tr.(txStarts := tr.txStarts + [|tr.instructions|])
  }

  /** Instructions of one transaction, in order, stopping at the first that fails. */
  function Steps<E>(step: Step, s: State, tr: Trace, ins: seq<Instruction>, index: nat): Result<(State, Trace), BatchError<E>>
    decreases |ins|
  {
    if ins == [] then Ok((s, tr))
    else
      var n := |ins| - 1;
      var before: (State, Trace) :- Steps<E>(step, s, tr, ins[..n], index);
      match step(before.0, ins[n])
      case Err(e) => Err(StepFailed(index, |before.1.instructions|, e))
      case Ok(s2) => Ok((s2, Push(before.1, ins[n], s2)))
  }

  /** A whole batch: failure of any transaction is failure of the batch. */
  function RunBatch<E>(compile: Compiler<E>, step: Step, s: State, txs: seq<Transaction>): Result<(State, Trace), BatchError<E>>
    decreases |txs|
  {
    if txs == [] then Ok((s, StartTrace(s)))
    else
      var n := |txs| - 1;
      var before: (State, Trace) :- RunBatch(compile, step, s, txs[..n]);
      OneTransaction(compile, step, before.0, before.1, txs[n], n)
  }

  function OneTransaction<E>(compile: Compiler<E>, step: Step, s: State, tr: Trace, t: Transaction, index: nat)
    : Result<(State, Trace), BatchError<E>>
  {
    match compile(t)
    case Err(e) => Err(CompileFailed(index, e))
    case Ok(ins) => Steps(step, s, MarkStart(tr), ins, index)
  }

  lemma {:induction false} StepsFailurePropagates<E>(step: Step, s: State, tr: Trace, ins: seq<Instruction>, index: nat, n: nat)
    requires n <= |ins| && Steps<E>(step, s, tr, ins[..n], index).Err?
    ensures Steps<E>(step, s, tr, ins, index) == Steps<E>(step, s, tr, ins[..n], index)
    decreases |ins|
  {
    if n == |ins| {
      assert ins[..n] == ins;
    } else {
      assert ins[..|ins| - 1][..n] == ins[..n];
      StepsFailurePropagates<E>(step, s, tr, ins[..|ins| - 1], index, n);
    }
  }

  lemma {:induction false} FailurePropagates<E>(compile: Compiler<E>, step: Step, s: State, txs: seq<Transaction>, n: nat)
    requires n <= |txs| && RunBatch(compile, step, s, txs[..n]).Err?
    ensures RunBatch(compile, step, s, txs) == RunBatch(compile, step, s, txs[..n])
    decreases |txs|
  {
    if n == |txs| {
      assert txs[..n] == txs;
    } else {
      assert txs[..|txs| - 1][..n] == txs[..n];
      FailurePropagates(compile, step, s, txs[..|txs| - 1], n);
    }
  }

  // ----- what a trace records

  /** The state after executing `ins` from `s`. */
  function Replay(step: Step, s: State, ins: seq<Instruction>): Result<State, StepError>
    decreases |ins|
  {
    if ins == [] then Ok(s)
    else
      var s1 :- Replay(step, s, ins[..|ins| - 1]);
      step(s1, ins[|ins| - 1])
  }

  lemma {:induction false} ReplayFails(step: Step, s: State, ins: seq<Instruction>, n: nat)
    requires n <= |ins| && Replay(step, s, ins[..n]).Err?
    ensures Replay(step, s, ins) == Replay(step, s, ins[..n])
    decreases |ins|
  {
    if n == |ins| {
      assert ins[..n] == ins;
    } else {
      assert ins[..|ins| - 1][..n] == ins[..n];
      ReplayFails(step, s, ins[..|ins| - 1], n);
    }
  }

  /** The trace really is an execution from `s`: position `i` records the root after `i` steps. */
  ghost predicate Honest(step: Step, s: State, tr: Trace) {
    && |tr.states| == |tr.instructions| + 1
    && forall i :: 0 <= i < |tr.states| ==> RecordedAt(step, s, tr, i)
  }

  ghost predicate RecordedAt(step: Step, s: State, tr: Trace, i: nat)
    requires i < |tr.states| == |tr.instructions| + 1
  {
    && Replay(step, s, tr.instructions[..i]).Ok?
    && tr.states[i] == MachineState(Replay(step, s, tr.instructions[..i]).value.root, i)
  }

  /** Consecutive positions of an honest trace are one step apart. */
  lemma StepBetween(step: Step, s: State, tr: Trace, i: nat) returns (before: State)
    requires Honest(step, s, tr) && i < |tr.instructions|
    ensures Replay(step, s, tr.instructions[..i]) == Ok(before) && tr.states[i] == MachineState(before.root, i)
    ensures step(before, tr.instructions[i]).Ok?
    ensures tr.states[i + 1] == MachineState(step(before, tr.instructions[i]).value.root, i + 1)
  {
    assert RecordedAt(step, s, tr, i) && RecordedAt(step, s, tr, i + 1);
    before := Replay(step, s, tr.instructions[..i]).value;
    assert tr.instructions[..i + 1][..i] == tr.instructions[..i];
  }

  /** `tr` is an execution from `s` that has reached `t`. */
  ghost predicate Reached(step: Step, s: State, t: State, tr: Trace) {
    Honest(step, s, tr) && Replay(step, s, tr.instructions) == Ok(t)
  }

  lemma ReachedStep(step: Step, s: State, t: State, tr: Trace, i: Instruction)
    requires Reached(step, s, t, tr) && step(t, i).Ok?
    ensures Reached(step, s, step(t, i).value, Push(tr, i, step(t, i).value))
  {
    var u := step(t, i).value;
    var tr' := Push(tr, i, u);
    var n := |tr.instructions|;
    assert tr'.instructions[..n] == tr.instructions;
    assert tr'.instructions[..n + 1] == tr'.instructions;
    forall j | 0 <= j < |tr'.states| ensures RecordedAt(step, s, tr', j) {
      if j <= n {
        assert RecordedAt(step, s, tr, j);
        assert tr'.instructions[..j] == tr.instructions[..j];
      }
    }
  }

  lemma {:induction false} StepsReach<E>(step: Step, s: State, t: State, tr: Trace, ins: seq<Instruction>, index: nat)
    requires Reached(step, s, t, tr) && Steps<E>(step, t, tr, ins, index).Ok?
    ensures var r := Steps<E>(step, t, tr, ins, index).value;
            && Reached(step, s, r.0, r.1)
            && r.1.instructions == tr.instructions + ins && r.1.txStarts == tr.txStarts
            && Replay(step, t, ins) == Ok(r.0)
    decreases |ins|
  {
    if ins != [] {
      var n := |ins| - 1;
      StepsReach<E>(step, s, t, tr, ins[..n], index);
      var r := Steps<E>(step, t, tr, ins[..n], index).value;
      ReachedStep(step, s, r.0, r.1, ins[n]);
      assert tr.instructions + ins == tr.instructions + ins[..n] + [ins[n]];
    }
  }

  /** The program anyone can derive from the published transactions alone. */
  function Program<E>(compile: Compiler<E>, txs: seq<Transaction>): Result<seq<Instruction>, E>
    decreases |txs|
  {
    if txs == [] then Ok([])
    else
      var front :- Program(compile, txs[..|txs| - 1]);
      var ins :- compile(txs[|txs| - 1]);
      Ok(front + ins)
  }

  /** Transaction `i` begins after the instructions of those before it. */
  ghost predicate StartsAt<E>(compile: Compiler<E>, txs: seq<Transaction>, i: nat, start: nat)
    requires i < |txs|
  {
    Program(compile, txs[..i]).Ok? && start == |Program(compile, txs[..i]).value|
  }

  /** A transaction's own instructions sit in the program at its start. */
  lemma {:induction false} TransactionInProgram<E>(compile: Compiler<E>, txs: seq<Transaction>, i: nat)
    requires i < |txs| && Program(compile, txs).Ok?
    ensures Program(compile, txs[..i]).Ok? && compile(txs[i]).Ok?
    ensures var start, ins := |Program(compile, txs[..i]).value|, compile(txs[i]).value;
            start + |ins| <= |Program(compile, txs).value| && Program(compile, txs).value[start..start + |ins|] == ins
    decreases |txs|
  {
    var n := |txs| - 1;
    if i < n {
      assert txs[..n][..i] == txs[..i];
      TransactionInProgram(compile, txs[..n], i);
    }
  }

  lemma StartKeepsReached(step: Step, s: State, t: State, tr: Trace)
    requires Reached(step, s, t, tr)
    ensures Reached(step, s, t, MarkStart(tr))
  {
    forall j | 0 <= j < |tr.states| ensures RecordedAt(step, s, MarkStart(tr), j) {
      assert RecordedAt(step, s, tr, j);
    }
  }

  /** A batch that executes yields an honest trace of exactly the program derivable from its
      published transactions, and each transaction starts where the trace says. */
  lemma {:induction false} BatchIsHonest<E>(compile: Compiler<E>, step: Step, s: State, txs: seq<Transaction>)
    requires RunBatch(compile, step, s, txs).Ok?
    ensures var r := RunBatch(compile, step, s, txs).value;
            && Reached(step, s, r.0, r.1)
            && Program(compile, txs) == Ok(r.1.instructions)
            && |r.1.txStarts| == |txs|
            && forall i :: 0 <= i < |txs| ==> StartsAt(compile, txs, i, r.1.txStarts[i])
    decreases |txs|
  {
    if txs == [] {
      assert RecordedAt(step, s, StartTrace(s), 0);
    } else {
      var n := |txs| - 1;
      BatchIsHonest(compile, step, s, txs[..n]);
      var r := RunBatch(compile, step, s, txs[..n]).value;
      StartKeepsReached(step, s, r.0, r.1);
      StepsReach<E>(step, s, r.0, MarkStart(r.1), compile(txs[n]).value, n);
      forall i | 0 <= i < |txs| ensures StartsAt(compile, txs, i, MarkStart(r.1).txStarts[i]) {
        assert txs[..n][..Min(i, n)] == txs[..i];
        if i < n { assert StartsAt(compile, txs[..n], i, r.1.txStarts[i]); }
      }
    }
  }

  /** A program holds what its transactions compile to, and nothing else. */
  lemma {:induction false} ProgramHas<E>(compile: Compiler<E>, txs: seq<Transaction>, t: Transaction, i: Instruction)
    requires Program(compile, txs).Ok? && t in txs
    requires compile(t).Ok? ==> i in compile(t).value
    ensures i in Program(compile, txs).value
    decreases |txs|
  {
    var n := |txs| - 1;
    if t != txs[n] {
      assert t in txs[..n];
      ProgramHas(compile, txs[..n], t, i);
    }
  }

  lemma {:induction false} ProgramFrom<E>(compile: Compiler<E>, txs: seq<Transaction>, i: Instruction) returns (t: Transaction)
    requires Program(compile, txs).Ok? && i in Program(compile, txs).value
    ensures t in txs && compile(t).Ok? && i in compile(t).value
    decreases |txs|
  {
    var n := |txs| - 1;
    if i in compile(txs[n]).value {
      t := txs[n];
    } else {
      t := ProgramFrom(compile, txs[..n], i);
    }
  }

  /** The last transaction of a batch ran from where the ones before it left off. */
  lemma LastTransaction<E>(compile: Compiler<E>, step: Step, s: State, txs: seq<Transaction>)
    requires txs != [] && RunBatch(compile, step, s, txs).Ok?
    ensures var n := |txs| - 1;
            && RunBatch(compile, step, s, txs[..n]).Ok? && compile(txs[n]).Ok?
            && Replay(step, RunBatch(compile, step, s, txs[..n]).value.0, compile(txs[n]).value)
                 == Ok(RunBatch(compile, step, s, txs).value.0)
  {
    var n := |txs| - 1;
    BatchIsHonest(compile, step, s, txs[..n]);
    var r := RunBatch(compile, step, s, txs[..n]).value;
    StartKeepsReached(step, s, r.0, r.1);
    StepsReach<E>(step, s, r.0, MarkStart(r.1), compile(txs[n]).value, n);
  }

  /** Recorded or not, the same instructions reach the same state or fail with the same error. */
  lemma {:induction false} StepsFollowReplay<E>(step: Step, s: State, tr: Trace, ins: seq<Instruction>, index: nat)
    ensures var r := Steps<E>(step, s, tr, ins, index);
            match Replay(step, s, ins)
            case Ok(t) => r.Ok? && r.value.0 == t
            case Err(e) => r.Err? && r.error.StepFailed? && r.error.failure == e
    decreases |ins|
  {
    if ins != [] {
      StepsFollowReplay<E>(step, s, tr, ins[..|ins| - 1], index);
    }
  }

  /** A batch whose first transaction fails at a step fails with that step's error. */
  lemma FirstTransactionFails<E>(compile: Compiler<E>, step: Step, s: State, txs: seq<Transaction>,
                                 a: seq<Instruction>, i: Instruction, b: seq<Instruction>)
    requires txs != [] && compile(txs[0]) == Ok(a + [i] + b)
    requires Replay(step, s, a).Ok? && step(Replay(step, s, a).value, i).Err?
    ensures var r := RunBatch(compile, step, s, txs);
            r.Err? && r.error.StepFailed? && r.error.failure == step(Replay(step, s, a).value, i).error
  {
    var tr := MarkStart(StartTrace(s));
    var upto, all := a + [i], a + [i] + b;
    assert upto[..|a|] == a && all[..|upto|] == upto;
    StepsFollowReplay<E>(step, s, tr, a, 0);
    StepsFailurePropagates<E>(step, s, tr, all, 0, |upto|);
    assert txs[..1][..0] == [];
    FailurePropagates(compile, step, s, txs, 1);
  }

  // ----- quantities along an execution

  type Weight = Instruction -> int

  function Sum(weight: Weight, ins: seq<Instruction>): int {
    if ins == [] then 0 else Sum(weight, ins[..|ins| - 1]) + weight(ins[|ins| - 1])
  }

  lemma {:induction false} SumAppend(weight: Weight, a: seq<Instruction>, b: seq<Instruction>)
    ensures Sum(weight, a + b) == Sum(weight, a) + Sum(weight, b)
    decreases |b|
  {
    if b == [] {
      assert a + b == a;
    } else {
      assert (a + b)[..|a + b| - 1] == a + b[..|b| - 1];
      SumAppend(weight, a, b[..|b| - 1]);
    }
  }

  /** A quantity every step changes by its instruction's weight changes over an execution by the sum. */
  lemma {:induction false} ReplaySums(step: Step, measure: State -> int, weight: Weight, s: State, ins: seq<Instruction>)
    requires forall t: State, i: Instruction :: i in ins && step(t, i).Ok? ==> measure(step(t, i).value) == measure(t) + weight(i)
    requires Replay(step, s, ins).Ok?
    ensures measure(Replay(step, s, ins).value) == measure(s) + Sum(weight, ins)
    decreases |ins|
  {
    if ins != [] {
      ReplaySums(step, measure, weight, s, ins[..|ins| - 1]);
    }
  }

  /** The ticket an instruction consumes, if it consumes one. */
  type Takes = Instruction -> Option<nat>

  function Tickets(takes: Takes, ins: seq<Instruction>): seq<nat> {
    if ins == [] then []
    else
      var last := takes(ins[|ins| - 1]);
      Tickets(takes, ins[..|ins| - 1]) + (if last.Some? then [last.value] else [])
  }

  lemma {:induction false} TicketsAppend(takes: Takes, a: seq<Instruction>, b: seq<Instruction>)
    ensures Tickets(takes, a + b) == Tickets(takes, a) + Tickets(takes, b)
    decreases |b|
  {
    if b == [] {
      assert a + b == a;
    } else {
      assert (a + b)[..|a + b| - 1] == a + b[..|b| - 1];
      TicketsAppend(takes, a, b[..|b| - 1]);
    }
  }

  /** Every ticket taken is the counter's value, and taking it moves the counter on by one. */
  ghost predicate Serves(step: Step, counter: State -> nat, takes: Takes, ins: seq<Instruction>) {
    forall t: State, i: Instruction :: i in ins && step(t, i).Ok? ==> Served(step, counter, takes, t, i)
  }

  ghost predicate Served(step: Step, counter: State -> nat, takes: Takes, t: State, i: Instruction)
    requires step(t, i).Ok?
  {
    match takes(i)
    case None => counter(step(t, i).value) == counter(t)
    case Some(n) => n == counter(t) && counter(step(t, i).value) == n + 1
  }

  ghost predicate Consecutive(tickets: seq<nat>, from: nat) {
    forall k :: 0 <= k < |tickets| ==> tickets[k] == from + k
  }

  /** Over any execution, the tickets taken are consecutive from the counter's first value. */
  lemma {:induction false} TicketsConsecutive(step: Step, counter: State -> nat, takes: Takes, s: State, ins: seq<Instruction>)
    requires Serves(step, counter, takes, ins) && Replay(step, s, ins).Ok?
    ensures Consecutive(Tickets(takes, ins), counter(s))
    ensures counter(Replay(step, s, ins).value) == counter(s) + |Tickets(takes, ins)|
    decreases |ins|
  {
    if ins != [] {
      var front := ins[..|ins| - 1];
      TicketsConsecutive(step, counter, takes, s, front);
      assert Served(step, counter, takes, Replay(step, s, front).value, ins[|ins| - 1]);
    }
  }
}
