/** What every run of the bisection protocol keeps, whoever plays and however badly. */
module BisectionRuns {
  import opened Digests
  import opened Arith
  import opened Bisection

  /** Anything anyone can submit to an open dispute. A ruling is only ever submitted at `OneStep`. */
  datatype Move =
    | Dissects(now: nat, commitments: seq<Digest>)
    | Selects(now: nat, index: nat)
    | Expires(now: nat)
    | Ruled(winner: Party)

  function Play(g: Game, m: Move): Game
    requires Playable(g)
  {
    match m
    case Dissects(now, commitments) => Dissect(g, now, commitments).0
    case Selects(now, index) => Select(g, now, index).0
    case Expires(now) => CheckTimeout(g, now).0
    case Ruled(winner) => if g.stage.OneStep? then ResolveByOneStep(g, winner) else g
  }

  /** Whether a move completes a dissect/select round. */
  function Narrows(g: Game, m: Move): nat
    requires Playable(g)
  {
    if m.Selects? && Select(g, m.now, m.index).1.Ok? then 1 else 0
  }

  lemma PlayKeepsPlayable(g: Game, m: Move)
    requires Playable(g)
    ensures Playable(Play(g, m))
  {
    if m.Selects? && Select(g, m.now, m.index).1.Ok? {
      BoundariesIncrease(g.lo, g.hi, g.arity, m.index);
    }
  }

  /** A dispute and its completed rounds after one more move. */
  function After(s: (Game, nat), m: Move): (t: (Game, nat))
    requires Playable(s.0)
    ensures Playable(t.0)
  {
    PlayKeepsPlayable(s.0, m);
    (Play(s.0, m), s.1 + Narrows(s.0, m))
  }

  /** The dispute after a run, and how many rounds it completed. */
  function PlayAll(o: Opening, openedAt: nat, ms: seq<Move>): (r: (Game, nat))
    ensures Playable(r.0)
    decreases |ms|
  {
    if ms == [] then (Open(o, openedAt), 0) else After(PlayAll(o, openedAt, ms[..|ms| - 1]), ms[|ms| - 1])
  }

  // ----- invariants

  /** Whose move the stage calls for, and how wide the interval is there. */
  ghost predicate Coherent(g: Game) {
    match g.stage
    case Bisecting(None) => g.turn.Defender? && g.hi - g.lo >= 2
    case Bisecting(Some(c)) =>
      g.turn.Challenger? && g.hi - g.lo >= 2 && |c| == |Boundaries(g.lo, g.hi, g.arity)| - 2
    case OneStep => g.turn.Challenger? && g.hi - g.lo == 1
    case Resolved(_, _) => true
  }

  /** `x * 8^r`. */
  function Scale(x: nat, r: nat): nat {
    if r == 0 then x else DEFAULT_ARITY * Scale(x, r - 1)
  }

  lemma {:induction false} ScaleIsProduct(x: nat, r: nat)
    ensures Scale(x, r) == x * Power(DEFAULT_ARITY, r)
  {
    if r > 0 {
      ScaleIsProduct(x, r - 1);
    }
  }

  lemma {:induction false} ScaleMonotone(x: nat, y: nat, r: nat)
    requires x <= y
    ensures Scale(x, r) <= Scale(y, r)
  {
    if r > 0 {
      ScaleMonotone(x, y, r - 1);
    }
  }

  lemma {:induction false} ScaleInside(x: nat, r: nat)
    ensures Scale(DEFAULT_ARITY * x, r) == Scale(x, r + 1)
  {
    if r > 0 {
      ScaleInside(x, r - 1);
    }
  }

  /** After `r` rounds the interval is non-empty and at most `ceil(traceLength / 8^r)` wide. */
  ghost predicate Narrowed(o: Opening, g: Game, r: nat) {
    && g.lo < g.hi <= o.traceLength
    && g.arity == DEFAULT_ARITY
    && Scale(g.hi - g.lo - 1, r) < o.traceLength
  }

  /** Time spent since opening plus both remaining clocks never exceeds the two budgets. */
  ghost predicate OnTime(o: Opening, openedAt: nat, g: Game) {
    && g.clockBudget == ClockBudget(o.challengeWindow)
    && openedAt <= g.lastMoveAt
    && g.lastMoveAt - openedAt + g.defenderClock + g.challengerClock <= 2 * g.clockBudget
    && g.deadline == SaturatingAdd(g.lastMoveAt, Allowance(g.clockBudget))
  }

  ghost predicate Sound(o: Opening, openedAt: nat, g: Game, r: nat) {
    g.lo <= g.hi && Coherent(g) && Narrowed(o, g, r) && OnTime(o, openedAt, g)
  }

  /** A segment of a wide interval is at most an eighth of it, rounded up. */
  lemma SegmentShrinks(span: nat, w: nat)
    requires 1 <= w && 1 <= span && w <= CeilDiv(span, Min(DEFAULT_ARITY, span))
    ensures DEFAULT_ARITY * (w - 1) <= span - 1
  {
    if span <= DEFAULT_ARITY {
      CeilWhole(span);
    } else {
      CeilTight(span, DEFAULT_ARITY);
    }
  }

  /** One selection divides the bound by the arity. */
  lemma NarrowStep(o: Opening, g: Game, r: nat, lo: nat, hi: nat)
    requires Narrowed(o, g, r) && g.lo <= lo < hi <= g.hi
    requires hi - lo <= CeilDiv(g.hi - g.lo, Min(DEFAULT_ARITY, g.hi - g.lo))
    ensures Narrowed(o, g.(lo := lo, hi := hi), r + 1)
  {
    var w := hi - lo;
    SegmentShrinks(g.hi - g.lo, w);
    ScaleMonotone(DEFAULT_ARITY * (w - 1), g.hi - g.lo - 1, r);
    ScaleInside(w - 1, r);
  }

  lemma BeginMoveSound(o: Opening, openedAt: nat, g: Game, r: nat, now: nat, p: Party)
    requires Sound(o, openedAt, g, r)
    ensures var (h, began) := BeginMove(g, now, p);
            && Sound(o, openedAt, h, r)
            && (began.Ok? ==> && h.stage == g.stage && h.turn == g.turn == p && h.lo == g.lo && h.hi == g.hi
                              && h.loCommitment == g.loCommitment && h.hiCommitment == g.hiCommitment
                              && g.lastMoveAt <= now
                              && now - openedAt + h.defenderClock + h.challengerClock <= 2 * h.clockBudget)
  {
  }

  lemma DissectSound(o: Opening, openedAt: nat, g: Game, r: nat, now: nat, commitments: seq<Digest>)
    requires Playable(g) && Sound(o, openedAt, g, r)
    ensures Sound(o, openedAt, Dissect(g, now, commitments).0, r)
  {
    BeginMoveSound(o, openedAt, g, r, now, Defender);
  }

  lemma SelectNarrows(o: Opening, g: Game, r: nat, now: nat, index: nat)
    requires Playable(g) && Narrowed(o, g, r) && Select(g, now, index).1.Ok?
    ensures Narrowed(o, Select(g, now, index).0, r + 1)
  {
    var b := Boundaries(g.lo, g.hi, g.arity);
    BoundariesIncrease(g.lo, g.hi, g.arity, index);
    NarrowStep(o, g, r, b[index], b[index + 1]);
  }

  lemma SelectCoheres(g: Game, now: nat, index: nat)
    requires Playable(g) && g.lo < g.hi && Select(g, now, index).1.Ok?
    ensures Coherent(Select(g, now, index).0)
  {
    BoundariesIncrease(g.lo, g.hi, g.arity, index);
  }

  lemma SelectOnTime(o: Opening, openedAt: nat, g: Game, now: nat, index: nat)
    requires Playable(g) && OnTime(o, openedAt, g) && Select(g, now, index).1.Ok?
    ensures OnTime(o, openedAt, Select(g, now, index).0)
  {
  }

  /** A refused selection leaves the game as `BeginMove` left it. */
  lemma RefusedSelect(g: Game, now: nat, index: nat)
    requires Playable(g) && Select(g, now, index).1.Err?
    ensures Select(g, now, index).0 == BeginMove(g, now, Challenger).0
  {
  }

  lemma SelectSound(o: Opening, openedAt: nat, g: Game, r: nat, now: nat, index: nat)
    requires Playable(g) && Sound(o, openedAt, g, r)
    ensures Sound(o, openedAt, Select(g, now, index).0, if Select(g, now, index).1.Ok? then r + 1 else r)
  {
    if Select(g, now, index).1.Ok? {
      SelectNarrows(o, g, r, now, index);
      SelectCoheres(g, now, index);
      SelectOnTime(o, openedAt, g, now, index);
    } else {
      RefusedSelect(g, now, index);
      BeginMoveSound(o, openedAt, g, r, now, Challenger);
    }
  }

  /** Every move by anyone keeps the invariant. */
  lemma PlaySound(o: Opening, openedAt: nat, s: (Game, nat), m: Move)
    requires Playable(s.0) && Sound(o, openedAt, s.0, s.1)
    ensures Sound(o, openedAt, After(s, m).0, After(s, m).1)
  {
    match m
    case Dissects(now, commitments) => DissectSound(o, openedAt, s.0, s.1, now, commitments);
    case Selects(now, index) => SelectSound(o, openedAt, s.0, s.1, now, index);
    case Expires(now) =>
    case Ruled(winner) =>
  }

  lemma OpenSound(o: Opening, openedAt: nat)
    requires 1 <= o.traceLength
    ensures Sound(o, openedAt, Open(o, openedAt), 0)
  {
  }

  lemma {:induction false} RunSound(o: Opening, openedAt: nat, ms: seq<Move>)
    requires 1 <= o.traceLength
    ensures Sound(o, openedAt, PlayAll(o, openedAt, ms).0, PlayAll(o, openedAt, ms).1)
    decreases |ms|
  {
    if ms == [] {
      OpenSound(o, openedAt);
    } else {
      RunSound(o, openedAt, ms[..|ms| - 1]);
      PlaySound(o, openedAt, PlayAll(o, openedAt, ms[..|ms| - 1]), ms[|ms| - 1]);
    }
  }

  // ----- convergence

  /** If `8^r` covers the bound, the interval is one step wide. */
  lemma Covered(o: Opening, g: Game, r: nat)
    requires Narrowed(o, g, r) && o.traceLength <= Power(DEFAULT_ARITY, r)
    ensures g.hi - g.lo == 1
  {
    if g.hi - g.lo >= 2 {
      ScaleMonotone(1, g.hi - g.lo - 1, r);
      ScaleIsProduct(1, r);
    }
  }

  /** Bisection converges logarithmically: whatever is published and selected, once `r` rounds
      with `8^r >= traceLength` are complete the dispute is at one step or over, and no run
      completes more rounds than that. */
  lemma ConvergesInLogRounds(o: Opening, openedAt: nat, ms: seq<Move>, bound: nat)
    requires 1 <= o.traceLength <= Power(DEFAULT_ARITY, bound)
    ensures var (g, r) := PlayAll(o, openedAt, ms);
            && r <= bound
            && (r == bound ==> !g.stage.Bisecting?)
            && (g.stage.OneStep? ==> g.hi == g.lo + 1 <= o.traceLength)
  {
    RunSound(o, openedAt, ms);
    RoundsBounded(o, openedAt, ms, bound);
    var (g, r) := PlayAll(o, openedAt, ms);
    if r == bound {
      Covered(o, g, r);
    }
  }

  lemma {:induction false} RoundsBounded(o: Opening, openedAt: nat, ms: seq<Move>, bound: nat)
    requires 1 <= o.traceLength <= Power(DEFAULT_ARITY, bound)
    ensures PlayAll(o, openedAt, ms).1 <= bound
    decreases |ms|
  {
    if ms != [] {
      var front := ms[..|ms| - 1];
      RoundsBounded(o, openedAt, front, bound);
      RunSound(o, openedAt, front);
      var (g, r) := PlayAll(o, openedAt, front);
      if r == bound {
        Covered(o, g, r);
        assert Narrows(g, ms[|ms| - 1]) == 0;
      }
    }
  }

  /** The products the boundary computation forms fit in a `u64` at every point of every run. */
  lemma BoundariesFitU64(o: Opening, openedAt: nat, ms: seq<Move>, i: nat)
    requires 1 <= o.traceLength <= U64_MAX / DEFAULT_ARITY
    ensures var g := PlayAll(o, openedAt, ms).0;
            i <= Segments(g.lo, g.hi, g.arity) ==> (g.hi - g.lo) * i <= U64_MAX
  {
    RunSound(o, openedAt, ms);
    var g := PlayAll(o, openedAt, ms).0;
    if i <= Segments(g.lo, g.hi, g.arity) {
      MulLe(g.hi - g.lo, i, DEFAULT_ARITY);
    }
  }

  ghost predicate Empty(g: Game) {
    g.lo == g.hi == 0 && !g.stage.OneStep?
  }

  lemma EmptyStep(s: (Game, nat), m: Move)
    requires Playable(s.0) && Empty(s.0)
    ensures Empty(After(s, m).0)
  {
    if m.Selects? && Select(s.0, m.now, m.index).1.Ok? {
      BoundariesIncrease(0, 0, s.0.arity, m.index);
    }
  }

  /** A dispute opened on an empty trace never reaches a step to adjudicate, whatever is played. */
  lemma {:induction false} EmptyTraceNeverNarrows(o: Opening, openedAt: nat, ms: seq<Move>)
    requires o.traceLength == 0
    ensures Empty(PlayAll(o, openedAt, ms).0)
    decreases |ms|
  {
    if ms != [] {
      EmptyTraceNeverNarrows(o, openedAt, ms[..|ms| - 1]);
      EmptyStep(PlayAll(o, openedAt, ms[..|ms| - 1]), ms[|ms| - 1]);
    }
  }

  // ----- the clock

  /** A dispute fits its window. In every run an unresolved dispute's deadline lies within three
      quarters of the challenge window from opening, so whoever asks after that ends it, while a
      quarter of the window is still left. */
  lemma DisputeFitsWindow(o: Opening, openedAt: nat, ms: seq<Move>, now: nat)
    requires 1 <= o.traceLength && openedAt + 3 * ClockBudget(o.challengeWindow) < now
    ensures var g := PlayAll(o, openedAt, ms).0;
            && g.lastMoveAt <= openedAt + 2 * ClockBudget(o.challengeWindow)
            && g.deadline <= openedAt + 3 * ClockBudget(o.challengeWindow)
            && 4 * (g.deadline - openedAt) <= 3 * o.challengeWindow
            && CheckTimeout(g, now).0.stage.Resolved?
  {
    RunSound(o, openedAt, ms);
  }

  /** The tighter reading, that the two parties together use at most half the window, does not
      bound when a dispute ends: at the window floor, two last-moment moves leave it open and
      unforfeited all the way up to three quarters. */
  lemma HalfWindowIsNotEnough(o: Opening, c: seq<Digest>, now: nat)
    requires o.traceLength == 64 && o.challengeWindow == 24 * 60 * 60 && |c| == 7
    requires o.challengeWindow / 2 < now <= 3 * (o.challengeWindow / 4)
    ensures !PlayAll(o, 0, [Dissects(6 * 60 * 60, c), Selects(12 * 60 * 60, 0), Expires(now)]).0.stage.Resolved?
  {
    var ms := [Dissects(6 * 60 * 60, c), Selects(12 * 60 * 60, 0), Expires(now)];
    assert ms[..2][..1][..0] == [] && ms[..2][..1] == ms[..1];
    var g0 := Open(o, 0);
    var g1 := Play(g0, ms[0]);
    assert PlayAll(o, 0, ms[..1]).0 == g1;
    assert Segments(g1.lo, g1.hi, g1.arity) == 8;
    var g2 := Play(g1, ms[1]);
    assert PlayAll(o, 0, ms[..2]).0 == g2;
    assert g2.deadline == 18 * 60 * 60 && g2.stage == Bisecting(None);
  }
}
