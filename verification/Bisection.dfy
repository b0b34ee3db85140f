/** The interactive bisection protocol: turns, deadlines, chess clocks and narrowing. */
module Bisection {
  import opened Digests
  import opened Arith

  datatype Party = Defender | Challenger

  function Opponent(p: Party): Party {
    match p
    case Defender => Challenger
    case Challenger => Defender
  }

  datatype Resolution = Timeout | ClockExhausted | OneStepAdjudicated

  datatype Stage =
    | Bisecting(offered: Option<seq<Digest>>)
    | OneStep
    | Resolved(winner: Party, reason: Resolution)

  datatype MoveError =
    | AlreadyResolved
    | WrongTurn(expected: Party, actual: Party)
    | WrongStage
    | WrongDissectionLength(required: nat, got: nat)
    | SegmentOutOfRange(index: nat, segments: nat)
    | TimeWentBackwards

  const MOVE_TIMEOUT: nat := 6 * 60 * 60
  const CLOCK_BUDGET_DIVISOR: nat := 4
  const DEFAULT_ARITY: nat := 8

  datatype Opening = Opening(
    assertion: Digest, defender: nat, challenger: nat, traceLength: nat,
    loCommitment: Digest, hiCommitment: Digest, challengeWindow: nat)

  /** The whole state of a dispute. */
  datatype Game = Game(
    assertion: Digest, defender: nat, challenger: nat,
    lo: nat, hi: nat, loCommitment: Digest, hiCommitment: Digest,
    stage: Stage, turn: Party, deadline: nat, clockBudget: nat,
    defenderClock: nat, challengerClock: nat, lastMoveAt: nat, arity: nat)

  function ClockBudget(window: nat): nat {
    window / CLOCK_BUDGET_DIVISOR
  }

  function Segments(lo: nat, hi: nat, arity: nat): nat
    requires lo <= hi
  {
    Max(Min(arity, hi - lo), 1)
  }

  /** Boundary `i` of an interval of `span` steps cut into `segments`. */
  function BoundaryAt(lo: nat, span: nat, segments: nat, i: nat): nat
    requires segments > 0
  {
    lo + Quot(Times(span, i), segments)
  }

  lemma BoundaryFormula(lo: nat, span: nat, segments: nat, i: nat)
    requires segments > 0
    ensures BoundaryAt(lo, span, segments, i) == lo + span * i / segments
  {
    TimesIsProduct(span, i);
    QuotIsDiv(span * i, segments);
  }

  /** The segment boundaries of `[lo, hi]` divided `arity` ways. */
  function Boundaries(lo: nat, hi: nat, arity: nat): (b: seq<nat>)
    requires lo <= hi
    ensures |b| == Segments(lo, hi, arity) + 1
  {
    var segments := Segments(lo, hi, arity);
    seq(segments + 1, i requires 0 <= i => BoundaryAt(lo, hi - lo, segments, i))
  }

  /** The boundaries as integer arithmetic computes them. */
  method ComputeBoundaries(lo: nat, hi: nat, arity: nat) returns (b: seq<nat>)
    requires lo <= hi
    ensures b == Boundaries(lo, hi, arity)
  {
    var span := hi - lo;
    var segments := Max(Min(arity, span), 1);
    b := [];
    for i := 0 to segments + 1
      invariant |b| == i && b == Boundaries(lo, hi, arity)[..i]
    {
      BoundaryFormula(lo, span, segments, i);
      b := b + [lo + span * i / segments];
    }
  }

  // ----- the moves, on values

  function EnterOneStepIfNarrow(g: Game): Game {
    if g.hi - g.lo == 1 then g.(stage := OneStep, turn := Challenger) else g
  }

  function Allowance(budget: nat): nat {
    Min(MOVE_TIMEOUT, budget)
  }

  function Open(o: Opening, now: nat): Game {
    var budget := ClockBudget(o.challengeWindow);
    EnterOneStepIfNarrow(Game(
      o.assertion, o.defender, o.challenger, 0, o.traceLength, o.loCommitment, o.hiCommitment,
      Bisecting(None), Defender, SaturatingAdd(now, Allowance(budget)), budget, budget, budget, now, DEFAULT_ARITY))
  }

  function Clock(g: Game, p: Party): nat {
    if p.Defender? then g.defenderClock else g.challengerClock
  }

  function Charge(g: Game, p: Party, elapsed: nat): Game
    requires elapsed <= Clock(g, p)
  {
    if p.Defender? then g.(defenderClock := g.defenderClock - elapsed)
    else g.(challengerClock := g.challengerClock - elapsed)
  }

  /** Checks the turn and charges the mover's clock, or ends the game against a late mover. */
  function BeginMove(g: Game, now: nat, p: Party): (Game, Result<(), MoveError>) {
    if g.stage.Resolved? then (g, Err(AlreadyResolved))
    else if now < g.lastMoveAt then (g, Err(TimeWentBackwards))
    else if g.turn != p then (g, Err(WrongTurn(g.turn, p)))
    else if now > g.deadline then (g.(stage := Resolved(Opponent(p), Timeout)), Err(AlreadyResolved))
    else if now - g.lastMoveAt > Clock(g, p) then
      (g.(stage := Resolved(Opponent(p), ClockExhausted)), Err(AlreadyResolved))
    else (Charge(g, p, now - g.lastMoveAt), Ok(()))
  }

  function PassTurn(g: Game, now: nat): Game {
    g.(turn := Opponent(g.turn), lastMoveAt := now, deadline := SaturatingAdd(now, Allowance(g.clockBudget)))
  }

  /** The defender publishes the interior states. A refusal after the turn check has already
      charged the clock. */
  function Dissect(g: Game, now: nat, commitments: seq<Digest>): (Game, Result<(), MoveError>)
    requires g.lo <= g.hi
  {
    var (h, began) := BeginMove(g, now, Defender);
    if began.Err? then (h, began)
    else if !h.stage.Bisecting? then (h, Err(WrongStage))
    else
      var required := |Boundaries(h.lo, h.hi, h.arity)| - 2;
      if |commitments| != required then (h, Err(WrongDissectionLength(required, |commitments|)))
      else (PassTurn(h.(stage := Bisecting(Some(commitments))), now), Ok(()))
  }

  /** Every boundary's commitment: the agreed start, the offered interior, the disputed end. */
  function AllCommitments(g: Game, offered: seq<Digest>): seq<Digest> {
    [g.loCommitment] + offered + [g.hiCommitment]
  }

  /** The challenger names the segment it disputes. */
  function Select(g: Game, now: nat, index: nat): (Game, Result<(), MoveError>)
    requires Playable(g)
  {
    var (h, began) := BeginMove(g, now, Challenger);
    if began.Err? then (h, began)
    else if !h.stage.Bisecting? || h.stage.offered.None? then (h, Err(WrongStage))
    else
      var bounds := Boundaries(h.lo, h.hi, h.arity);
      var segments := |bounds| - 1;
      if index >= segments then (h, Err(SegmentOutOfRange(index, segments)))
      else
        var all := AllCommitments(h, h.stage.offered.value);
        var narrowed := h.(lo := bounds[index], hi := bounds[index + 1],
                           loCommitment := all[index], hiCommitment := all[index + 1],
                           stage := Bisecting(None));
        (EnterOneStepIfNarrow(PassTurn(narrowed, now)), Ok(()))
  }

  /** A pending division has one commitment per interior boundary. */
  predicate Playable(g: Game) {
    && g.lo <= g.hi
    && (g.stage.Bisecting? && g.stage.offered.Some? ==>
          |g.stage.offered.value| == |Boundaries(g.lo, g.hi, g.arity)| - 2)
  }

  function ResolveByOneStep(g: Game, winner: Party): Game {
    g.(stage := Resolved(winner, OneStepAdjudicated))
  }

  /** Past the deadline, whoever must move forfeits. */
  function CheckTimeout(g: Game, now: nat): (Game, Option<Party>) {
    if g.stage.Resolved? || now <= g.deadline then (g, None)
    else (g.(stage := Resolved(Opponent(g.turn), Timeout)), Some(Opponent(g.turn)))
  }

  // ----- the dispute as the source keeps it

  class Dispute {
    const assertion: Digest
    const defender: nat
    const challenger: nat
    var lo: nat
    var hi: nat
    var loCommitment: Digest
    var hiCommitment: Digest
    var stage: Stage
    var turn: Party
    var deadline: nat
    const clockBudget: nat
    var defenderClock: nat
    var challengerClock: nat
    var lastMoveAt: nat
    const arity: nat

    function Now(): Game
      reads this
    {
      Game(assertion, defender, challenger, lo, hi, loCommitment, hiCommitment, stage, turn, deadline,
           clockBudget, defenderClock, challengerClock, lastMoveAt, arity)
    }

    constructor (o: Opening, now: nat)
      ensures Now() == Open(o, now) && Playable(Now())
    {
      assertion, defender, challenger := o.assertion, o.defender, o.challenger;
      lo, hi, loCommitment, hiCommitment := 0, o.traceLength, o.loCommitment, o.hiCommitment;
      stage, turn := Bisecting(None), Defender;
      var budget := ClockBudget(o.challengeWindow);
      clockBudget, defenderClock, challengerClock := budget, budget, budget;
      deadline := SaturatingAdd(now, Allowance(budget));
      lastMoveAt, arity := now, DEFAULT_ARITY;
      new;
      NarrowCheck();
    }

    method NarrowCheck()
      requires lo <= hi
      modifies this`stage, this`turn
      ensures Now() == EnterOneStepIfNarrow(old(Now()))
    {
      if hi - lo == 1 {
        stage := OneStep;
        turn := Challenger;
      }
    }

    method Begin(now: nat, p: Party) returns (r: Result<(), MoveError>)
      modifies this`stage, this`defenderClock, this`challengerClock
      ensures (Now(), r) == BeginMove(old(Now()), now, p)
    {
      if stage.Resolved? {
        return Err(AlreadyResolved);
      }
      if now < lastMoveAt {
        return Err(TimeWentBackwards);
      }
      if turn != p {
        return Err(WrongTurn(turn, p));
      }
      if now > deadline {
        stage := Resolved(Opponent(p), Timeout);
        return Err(AlreadyResolved);
      }
      var elapsed := now - lastMoveAt;
      var clock := if p.Defender? then defenderClock else challengerClock;
      if elapsed > clock {
        stage := Resolved(Opponent(p), ClockExhausted);
        return Err(AlreadyResolved);
      }
      if p.Defender? {
        defenderClock := clock - elapsed;
      } else {
        challengerClock := clock - elapsed;
      }
      return Ok(());
    }

    method Pass(now: nat)
      modifies this`turn, this`lastMoveAt, this`deadline
      ensures Now() == PassTurn(old(Now()), now)
    {
      turn := Opponent(turn);
      lastMoveAt := now;
      deadline := SaturatingAdd(now, Allowance(clockBudget));
    }

    method DissectMove(now: nat, commitments: seq<Digest>) returns (r: Result<(), MoveError>)
      requires Playable(Now())
      modifies this
      ensures (Now(), r) == Dissect(old(Now()), now, commitments) && Playable(Now())
    {
      r := Begin(now, Defender);
      if r.Err? {
        return;
      }
      if !stage.Bisecting? {
        return Err(WrongStage);
      }
      var required := |Boundaries(lo, hi, arity)| - 2;
      if |commitments| != required {
        return Err(WrongDissectionLength(required, |commitments|));
      }
      stage := Bisecting(Some(commitments));
      Pass(now);
      return Ok(());
    }

    method SelectMove(now: nat, index: nat) returns (r: Result<(), MoveError>)
      requires Playable(Now())
      modifies this
      ensures (Now(), r) == Select(old(Now()), now, index) && Playable(Now())
    {
      r := Begin(now, Challenger);
      if r.Err? {
        return;
      }
      if !stage.Bisecting? || stage.offered.None? {
        return Err(WrongStage);
      }
      var bounds := Boundaries(lo, hi, arity);
      var segments := |bounds| - 1;
      if index >= segments {
        return Err(SegmentOutOfRange(index, segments));
      }
      BoundariesIncrease(lo, hi, arity, index);
      var all := [loCommitment] + stage.offered.value + [hiCommitment];
      lo := bounds[index];
      hi := bounds[index + 1];
      loCommitment := all[index];
      hiCommitment := all[index + 1];
      stage := Bisecting(None);
      Pass(now);
      NarrowCheck();
      return Ok(());
    }

    method TimeoutMove(now: nat) returns (winner: Option<Party>)
      modifies this`stage
      ensures (Now(), winner) == CheckTimeout(old(Now()), now)
    {
      if stage.Resolved? || now <= deadline {
        return None;
      }
      winner := Some(Opponent(turn));
      stage := Resolved(Opponent(turn), Timeout);
    }

    method Resolve(winner: Party)
      modifies this`stage
      ensures Now() == ResolveByOneStep(old(Now()), winner)
    {
      stage := Resolved(winner, OneStepAdjudicated);
    }
  }

  // ----- boundaries

  lemma SegmentWidth(lo: nat, span: nat, s: nat, i: nat)
    requires 0 < s && i < s
    ensures lo <= BoundaryAt(lo, span, s, i)
    ensures span / s <= BoundaryAt(lo, span, s, i + 1) - BoundaryAt(lo, span, s, i) <= CeilDiv(span, s)
    ensures BoundaryAt(lo, span, s, i + 1) <= lo + span
  {
    BoundaryFormula(lo, span, s, i);
    BoundaryFormula(lo, span, s, i + 1);
    Distribute(i, 1, span);
    assert span * (i + 1) == span * i + span;
    DivSplit(span * i, span, s);
    MulLe(span, i + 1, s);
    DivLe(span * (i + 1), span * s, s);
    DivSelf(span, s);
  }

  lemma BoundaryEnds(lo: nat, span: nat, s: nat)
    requires 0 < s
    ensures BoundaryAt(lo, span, s, 0) == lo && BoundaryAt(lo, span, s, s) == lo + span
  {
    BoundaryFormula(lo, span, s, 0);
    BoundaryFormula(lo, span, s, s);
    DivSelf(span, s);
    assert span * 0 == 0;
  }

  /** Boundaries run from `lo` to `hi`, strictly increasing on a non-empty interval, and no
      segment is wider than `ceil(span / segments)`. */
  lemma BoundariesIncrease(lo: nat, hi: nat, arity: nat, i: nat)
    requires lo <= hi && i < Segments(lo, hi, arity)
    ensures var b := Boundaries(lo, hi, arity);
            var s := Segments(lo, hi, arity);
            && lo <= b[i] <= b[i + 1] <= hi
            && (lo < hi ==> b[i] < b[i + 1])
            && b[i + 1] - b[i] <= CeilDiv(hi - lo, s)
            && b[0] == lo && b[s] == hi
  {
    var s := Segments(lo, hi, arity);
    SegmentWidth(lo, hi - lo, s, i);
    BoundaryEnds(lo, hi - lo, s);
    if lo < hi {
      DivLe(s, hi - lo, s);
      DivSelf(1, s);
    }
  }
}
