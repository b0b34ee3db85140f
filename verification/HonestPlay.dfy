/** One honest party against any opponent, with deadlines and clocks running.

    The honest party is a function `commit` from positions to the commitments it stands by. What
    happens at the last step is a parameter here; `Disputes` supplies the trace player and L1. */
module HonestPlay {
  import opened Digests
  import opened Arith
  import opened Bisection
  import opened BisectionRuns

  type Commit = nat -> Digest

  /** The interior commitments an honest defender publishes. */
  function InteriorOf(commit: Commit, g: Game): (c: seq<Digest>)
    requires g.lo <= g.hi
    ensures |c| == |Boundaries(g.lo, g.hi, g.arity)| - 2
    ensures forall i :: 0 <= i < |c| ==> c[i] == commit(Boundaries(g.lo, g.hi, g.arity)[i + 1])
  {
    var b := Boundaries(g.lo, g.hi, g.arity);
    seq(|b| - 2, i requires 0 <= i < |b| - 2 => commit(b[i + 1]))
  }

  /** The first index from `i` whose claimed end the player does not stand by. */
  function FirstMismatch(commit: Commit, bounds: seq<nat>, ends: seq<Digest>, i: nat): (j: Option<nat>)
    requires i <= |ends| < |bounds|
    ensures j.Some? ==> i <= j.value < |ends| && ends[j.value] != commit(bounds[j.value + 1])
    ensures forall l :: i <= l < (if j.Some? then j.value else |ends|) ==> ends[l] == commit(bounds[l + 1])
    decreases |ends| - i
  {
    if i == |ends| then None
    else if commit(bounds[i + 1]) != ends[i] then Some(i)
    else FirstMismatch(commit, bounds, ends, i + 1)
  }

  /** The first segment whose end an honest challenger disputes. */
  function FirstDisagreement(commit: Commit, g: Game, offered: seq<Digest>): Option<nat>
    requires g.lo <= g.hi && |offered| == |Boundaries(g.lo, g.hi, g.arity)| - 2
  {
    FirstMismatch(commit, Boundaries(g.lo, g.hi, g.arity), offered + [g.hiCommitment], 0)
  }

  /** A challenger that disagrees about the end always finds a segment, and the segment it names
      starts at a commitment it stands by and ends at one it does not. */
  lemma DisagreementFound(commit: Commit, g: Game, offered: seq<Digest>)
    requires g.lo <= g.hi && |offered| == |Boundaries(g.lo, g.hi, g.arity)| - 2
    requires g.loCommitment == commit(g.lo) && g.hiCommitment != commit(g.hi)
    ensures var found := FirstDisagreement(commit, g, offered);
            var b := Boundaries(g.lo, g.hi, g.arity);
            var all := AllCommitments(g, offered);
            && found.Some? && found.value < |b| - 1
            && all[found.value] == commit(b[found.value])
            && all[found.value + 1] != commit(b[found.value + 1])
  {
    var b := Boundaries(g.lo, g.hi, g.arity);
    var ends := offered + [g.hiCommitment];
    BoundariesIncrease(g.lo, g.hi, g.arity, 0);
    assert ends[|b| - 2] == g.hiCommitment;
    var found := FirstDisagreement(commit, g, offered);
    var all := AllCommitments(g, offered);
    assert forall i :: 0 <= i < |ends| ==> all[i + 1] == ends[i];
    if found.value > 0 {
      assert ends[found.value - 1] == commit(b[found.value]);
    }
  }

  // ----- the honest challenger

  /** What happens in a dispute where the challenger is honest: the defender submits anything at
      any time, the challenger takes its turn, anyone asks the clock. */
  datatype ChallengerEvent =
    | DefenderMoves(now: nat, commitments: seq<Digest>)
    | ChallengerActs(now: nat)
    | ClockAsked(now: nat)

  /** Changes nothing at any stage of any dispute. */
  const NoMove: Move := Expires(0)

  /** The move an event makes. At one step the challenger submits its proof, if it has one, and
      `finish` says how L1 rules. */
  function ChallengerMove(commit: Commit, finish: Game -> Option<Party>, g: Game, e: ChallengerEvent): Move
    requires Playable(g)
  {
    match e
    case DefenderMoves(now, commitments) => Dissects(now, commitments)
    case ClockAsked(now) => Expires(now)
    case ChallengerActs(now) =>
      match g.stage
      case Bisecting(Some(offered)) =>
        (match FirstDisagreement(commit, g, offered)
         case Some(i) => Selects(now, i)
         case None => NoMove)
      case OneStep =>
        (match finish(g)
         case Some(w) => Ruled(w)
         case None => NoMove)
      case _ => NoMove
  }

  function ChallengerRun(commit: Commit, finish: Game -> Option<Party>, o: Opening, openedAt: nat, es: seq<ChallengerEvent>)
    : (r: (Game, nat))
    ensures Playable(r.0)
    decreases |es|
  {
    if es == [] then (Open(o, openedAt), 0)
    else
      After(ChallengerRun(commit, finish, o, openedAt, es[..|es| - 1]),
            ChallengerMove(commit, finish, ChallengerRun(commit, finish, o, openedAt, es[..|es| - 1]).0, es[|es| - 1]))
  }

  /** While the party is to move, nothing happens later than `delay` after the opponent's move. */
  ghost predicate Prompt(g: Game, p: Party, now: nat, delay: nat) {
    now <= U64_MAX && (g.turn == p && !g.stage.Resolved? ==> now <= g.lastMoveAt + delay)
  }

  /** A response delay the budget can carry: `rounds` answers, each within a move's allowance. */
  ghost predicate Affordable(o: Opening, rounds: nat, delay: nat) {
    var budget := ClockBudget(o.challengeWindow);
    && o.traceLength <= Power(DEFAULT_ARITY, rounds)
    && delay <= Allowance(budget)
    && Times(delay, rounds) <= budget
  }

  /** The player has just had its turn and the dispute did not change. */
  ghost predicate Stuck(commit: Commit, finish: Game -> Option<Party>, o: Opening, openedAt: nat, es: seq<ChallengerEvent>)
  {
    && es != [] && es[|es| - 1].ChallengerActs?
    && var before := ChallengerRun(commit, finish, o, openedAt, es[..|es| - 1]);
       before.0.lastMoveAt <= es[|es| - 1].now && ChallengerRun(commit, finish, o, openedAt, es) == before
  }

  /** The challenger takes its turn within `delay`: nothing happens later than that while it is to
      move, unless it did take its turn and had no move to make. */
  ghost predicate PromptChallenger(commit: Commit, finish: Game -> Option<Party>, o: Opening, openedAt: nat,
                                   es: seq<ChallengerEvent>, delay: nat)
    decreases |es|
  {
    es != [] ==>
      && PromptChallenger(commit, finish, o, openedAt, es[..|es| - 1], delay)
      && (|| Prompt(ChallengerRun(commit, finish, o, openedAt, es[..|es| - 1]).0, Challenger, es[|es| - 1].now, delay)
          || (es[|es| - 1].now <= U64_MAX && Stuck(commit, finish, o, openedAt, es[..|es| - 1])))
  }

  /** Agreement at the start, disagreement at the end, and time in hand; or victory. */
  ghost predicate ChallengerHolds(commit: Commit, g: Game, r: nat, delay: nat) {
    if g.stage.Resolved? then g.stage.winner == Challenger
    else && g.loCommitment == commit(g.lo)
         && g.hiCommitment != commit(g.hi)
         && g.challengerClock + Times(delay, r) >= g.clockBudget
  }

  /** The challenger's last step is won whenever it is reached in good standing. */
  ghost predicate WinsLastStep(commit: Commit, finish: Game -> Option<Party>, traceLength: nat) {
    forall g: Game ::
      g.stage.OneStep? && g.hi == g.lo + 1 <= traceLength && g.loCommitment == commit(g.lo) && g.hiCommitment != commit(g.hi)
      ==> finish(g) == Some(Challenger)
  }

  /** There is still a round in the budget while the interval is wide. */
  lemma RoundInHand(o: Opening, openedAt: nat, g: Game, r: nat, rounds: nat, delay: nat)
    requires Sound(o, openedAt, g, r) && g.stage.Bisecting? && Affordable(o, rounds, delay)
    ensures r < rounds && Times(delay, r + 1) <= g.clockBudget
  {
    if r >= rounds {
      PowerMonotone(DEFAULT_ARITY, rounds, r);
      Covered(o, g, r);
    } else {
      TimesMonotone(delay, r + 1, rounds);
    }
  }

  lemma {:induction false} PowerMonotone(b: nat, i: nat, j: nat)
    requires b > 0 && i <= j
    ensures Power(b, i) <= Power(b, j)
    decreases j
  {
    if i < j {
      PowerMonotone(b, i, j - 1);
      MulLe(Power(b, j - 1), 1, b);
    }
  }

  /** A prompt party is never past its deadline. */
  lemma PromptInTime(o: Opening, openedAt: nat, g: Game, r: nat, p: Party, now: nat, delay: nat)
    requires Sound(o, openedAt, g, r) && Prompt(g, p, now, delay) && g.turn == p && !g.stage.Resolved?
    requires delay <= Allowance(g.clockBudget)
    ensures now <= g.deadline
  {
  }

  /** What an accepted selection of segment `i` leaves. */
  ghost predicate NarrowedTo(g: Game, h: Game, i: nat)
    requires Playable(g) && g.stage.Bisecting? && g.stage.offered.Some?
  {
    var b := Boundaries(g.lo, g.hi, g.arity);
    var all := AllCommitments(g, g.stage.offered.value);
    && i < Segments(g.lo, g.hi, g.arity)
    && h.lo == b[i] && h.hi == b[i + 1] && h.loCommitment == all[i] && h.hiCommitment == all[i + 1]
    && (h.stage == Bisecting(None) || h.stage == OneStep)
    && h.defenderClock == g.defenderClock && h.clockBudget == g.clockBudget && h.challengerClock <= g.challengerClock
  }

  /** A selection made in turn, in time and in range is accepted. */
  lemma SelectionAccepted(g: Game, now: nat, i: nat)
    requires Playable(g) && g.stage.Bisecting? && g.stage.offered.Some? && g.turn.Challenger?
    requires g.lastMoveAt <= now <= g.deadline && now - g.lastMoveAt <= g.challengerClock
    requires i < Segments(g.lo, g.hi, g.arity)
    ensures var (h, selected) := Select(g, now, i);
            && selected.Ok? && NarrowedTo(g, h, i)
            && h.challengerClock == g.challengerClock - (now - g.lastMoveAt)
  {
  }

  lemma HonestSelection(commit: Commit, o: Opening, openedAt: nat, g: Game, r: nat, now: nat, rounds: nat, delay: nat)
    requires Playable(g) && Sound(o, openedAt, g, r) && ChallengerHolds(commit, g, r, delay)
    requires Affordable(o, rounds, delay) && Prompt(g, Challenger, now, delay)
    requires g.stage.Bisecting? && g.stage.offered.Some? && g.lastMoveAt <= now
    ensures var i := FirstDisagreement(commit, g, g.stage.offered.value);
            i.Some? && Select(g, now, i.value).1.Ok? && ChallengerHolds(commit, Select(g, now, i.value).0, r + 1, delay)
  {
    var offered := g.stage.offered.value;
    DisagreementFound(commit, g, offered);
    var i := FirstDisagreement(commit, g, offered).value;
    RoundInHand(o, openedAt, g, r, rounds, delay);
    PromptInTime(o, openedAt, g, r, Challenger, now, delay);
    SelectionAccepted(g, now, i);
  }

  /** Whatever the defender submits costs the challenger nothing. */
  lemma ChallengerWaits(commit: Commit, s: (Game, nat), now: nat, commitments: seq<Digest>, delay: nat)
    requires Playable(s.0) && ChallengerHolds(commit, s.0, s.1, delay)
    ensures ChallengerHolds(commit, After(s, Dissects(now, commitments)).0, After(s, Dissects(now, commitments)).1, delay)
  {
  }

  lemma ChallengerInTime(commit: Commit, o: Opening, openedAt: nat, s: (Game, nat), now: nat, rounds: nat, delay: nat)
    requires Playable(s.0) && Sound(o, openedAt, s.0, s.1) && ChallengerHolds(commit, s.0, s.1, delay)
    requires Affordable(o, rounds, delay) && Prompt(s.0, Challenger, now, delay)
    ensures ChallengerHolds(commit, After(s, Expires(now)).0, After(s, Expires(now)).1, delay)
  {
    if s.0.turn.Challenger? && !s.0.stage.Resolved? {
      PromptInTime(o, openedAt, s.0, s.1, Challenger, now, delay);
    }
  }

  lemma ChallengerNarrows(commit: Commit, o: Opening, openedAt: nat, s: (Game, nat), now: nat, rounds: nat, delay: nat)
    requires Playable(s.0) && Sound(o, openedAt, s.0, s.1) && ChallengerHolds(commit, s.0, s.1, delay)
    requires Affordable(o, rounds, delay) && Prompt(s.0, Challenger, now, delay)
    requires s.0.stage.Bisecting? && s.0.stage.offered.Some? && s.0.lastMoveAt <= now
    ensures var i := FirstDisagreement(commit, s.0, s.0.stage.offered.value);
            && i.Some?
            && var t := After(s, Selects(now, i.value)); ChallengerHolds(commit, t.0, t.1, delay) && t.1 == s.1 + 1
  {
    HonestSelection(commit, o, openedAt, s.0, s.1, now, rounds, delay);
  }

  /** The challenger's turn, taken in time, keeps its standing and always counts. */
  lemma ChallengerTurn(commit: Commit, finish: Game -> Option<Party>, o: Opening, openedAt: nat,
                       s: (Game, nat), now: nat, rounds: nat, delay: nat)
    requires Playable(s.0) && Sound(o, openedAt, s.0, s.1) && ChallengerHolds(commit, s.0, s.1, delay)
    requires Affordable(o, rounds, delay) && Prompt(s.0, Challenger, now, delay)
    requires WinsLastStep(commit, finish, o.traceLength)
    ensures var t := After(s, ChallengerMove(commit, finish, s.0, ChallengerActs(now)));
            && ChallengerHolds(commit, t.0, t.1, delay)
            && (s.0.turn.Challenger? && !s.0.stage.Resolved? && s.0.lastMoveAt <= now ==> t.1 > s.1 || t.0.stage.Resolved?)
  {
    if s.0.stage.Bisecting? && s.0.stage.offered.Some? && s.0.lastMoveAt <= now {
      ChallengerNarrows(commit, o, openedAt, s, now, rounds, delay);
    }
  }

  lemma ChallengerStep(commit: Commit, finish: Game -> Option<Party>, o: Opening, openedAt: nat,
                       s: (Game, nat), e: ChallengerEvent, rounds: nat, delay: nat)
    requires Playable(s.0) && Sound(o, openedAt, s.0, s.1) && ChallengerHolds(commit, s.0, s.1, delay)
    requires Affordable(o, rounds, delay) && Prompt(s.0, Challenger, e.now, delay)
    requires WinsLastStep(commit, finish, o.traceLength)
    ensures var t := After(s, ChallengerMove(commit, finish, s.0, e));
            ChallengerHolds(commit, t.0, t.1, delay)
  {
    match e
    case DefenderMoves(now, commitments) => ChallengerWaits(commit, s, now, commitments, delay);
    case ClockAsked(now) => ChallengerInTime(commit, o, openedAt, s, now, rounds, delay);
    case ChallengerActs(now) => ChallengerTurn(commit, finish, o, openedAt, s, now, rounds, delay);
  }

  /** In good standing the player is never stuck. */
  lemma NeverStuck(commit: Commit, finish: Game -> Option<Party>, o: Opening, openedAt: nat,
                   es: seq<ChallengerEvent>, rounds: nat, delay: nat)
    requires Stuck(commit, finish, o, openedAt, es) && Affordable(o, rounds, delay) && WinsLastStep(commit, finish, o.traceLength)
    requires ChallengerGood(commit, finish, o, openedAt, es[..|es| - 1], delay)
    requires Prompt(ChallengerRun(commit, finish, o, openedAt, es[..|es| - 1]).0, Challenger, es[|es| - 1].now, delay)
    ensures var g := ChallengerRun(commit, finish, o, openedAt, es).0; g.turn.Challenger? ==> g.stage.Resolved?
  {
    var s := ChallengerRun(commit, finish, o, openedAt, es[..|es| - 1]);
    ChallengerTurn(commit, finish, o, openedAt, s, es[|es| - 1].now, rounds, delay);
  }

  ghost predicate ChallengerGood(commit: Commit, finish: Game -> Option<Party>, o: Opening, openedAt: nat,
                                 es: seq<ChallengerEvent>, delay: nat)
  {
    var s := ChallengerRun(commit, finish, o, openedAt, es);
    Sound(o, openedAt, s.0, s.1) && ChallengerHolds(commit, s.0, s.1, delay)
  }

  lemma {:induction false} ChallengerRunHolds(commit: Commit, finish: Game -> Option<Party>, o: Opening, openedAt: nat,
                                              es: seq<ChallengerEvent>, rounds: nat, delay: nat)
    requires 1 <= o.traceLength && o.loCommitment == commit(0) && o.hiCommitment != commit(o.traceLength)
    requires Affordable(o, rounds, delay) && PromptChallenger(commit, finish, o, openedAt, es, delay)
    requires WinsLastStep(commit, finish, o.traceLength)
    ensures ChallengerGood(commit, finish, o, openedAt, es, delay)
    ensures es != [] ==> Prompt(ChallengerRun(commit, finish, o, openedAt, es[..|es| - 1]).0, Challenger, es[|es| - 1].now, delay)
    decreases |es|
  {
    if es == [] {
      OpenSound(o, openedAt);
    } else {
      var front, e := es[..|es| - 1], es[|es| - 1];
      ChallengerRunHolds(commit, finish, o, openedAt, front, rounds, delay);
      if Stuck(commit, finish, o, openedAt, front) {
        ChallengerRunHolds(commit, finish, o, openedAt, front[..|front| - 1], rounds, delay);
        NeverStuck(commit, finish, o, openedAt, front, rounds, delay);
      }
      var s := ChallengerRun(commit, finish, o, openedAt, front);
      PlaySound(o, openedAt, s, ChallengerMove(commit, finish, s.0, e));
      ChallengerStep(commit, finish, o, openedAt, s, e, rounds, delay);
    }
  }

  /** When the window's last quarter begins, a dispute with a prompt honest challenger has been
      won by the challenger, or the next clock check awards it. */
  lemma ChallengerWins(commit: Commit, finish: Game -> Option<Party>, o: Opening, openedAt: nat,
                       es: seq<ChallengerEvent>, rounds: nat, delay: nat, now: nat)
    requires 1 <= o.traceLength && o.loCommitment == commit(0) && o.hiCommitment != commit(o.traceLength)
    requires Affordable(o, rounds, delay) && WinsLastStep(commit, finish, o.traceLength)
    requires PromptChallenger(commit, finish, o, openedAt, es + [ClockAsked(now)], delay)
    requires openedAt + 3 * ClockBudget(o.challengeWindow) < now
    ensures var g := ChallengerRun(commit, finish, o, openedAt, es + [ClockAsked(now)]).0;
            g.stage.Resolved? && g.stage.winner == Challenger
  {
    var all := es + [ClockAsked(now)];
    assert all[..|all| - 1] == es;
    ChallengerRunHolds(commit, finish, o, openedAt, all, rounds, delay);
    ChallengerRunHolds(commit, finish, o, openedAt, es, rounds, delay);
    var (g, r) := ChallengerRun(commit, finish, o, openedAt, es);
    if g.turn.Challenger? && !g.stage.Resolved? {
      PromptInTime(o, openedAt, g, r, Challenger, now, delay);
    }
  }

  // ----- the honest defender

  /** The challenger selects anything and submits any proof, the defender takes its turn. */
  datatype DefenderEvent<P> =
    | ChallengerSelects(now: nat, index: nat)
    | ChallengerProves(now: nat, proof: P)
    | DefenderActs(now: nat)
    | TimeAsked(now: nat)

  /** The move an event makes; `judge` is how L1 rules on a submitted proof. */
  function DefenderMove<P>(commit: Commit, judge: (Game, P) -> Party, g: Game, e: DefenderEvent<P>): Move
    requires Playable(g)
  {
    match e
    case ChallengerSelects(now, index) => Selects(now, index)
    case ChallengerProves(_, proof) => if g.stage.OneStep? then Ruled(judge(g, proof)) else NoMove
    case DefenderActs(now) => Dissects(now, InteriorOf(commit, g))
    case TimeAsked(now) => Expires(now)
  }

  function DefenderRun<P>(commit: Commit, judge: (Game, P) -> Party, o: Opening, openedAt: nat, es: seq<DefenderEvent<P>>)
    : (r: (Game, nat))
    ensures Playable(r.0)
    decreases |es|
  {
    if es == [] then (Open(o, openedAt), 0)
    else
      After(DefenderRun(commit, judge, o, openedAt, es[..|es| - 1]),
            DefenderMove(commit, judge, DefenderRun(commit, judge, o, openedAt, es[..|es| - 1]).0, es[|es| - 1]))
  }

  /** The defender answers in time. A dissection it repeats after answering is out of turn and free. */
  ghost predicate PromptDefender<P>(commit: Commit, judge: (Game, P) -> Party, o: Opening, openedAt: nat,
                                    es: seq<DefenderEvent<P>>, delay: nat)
    decreases |es|
  {
    es != [] ==>
      && PromptDefender(commit, judge, o, openedAt, es[..|es| - 1], delay)
      && Prompt(DefenderRun(commit, judge, o, openedAt, es[..|es| - 1]).0, Defender, es[|es| - 1].now, delay)
  }

  /** Both ends, and everything offered in between, are commitments the defender stands by. */
  ghost predicate DefenderHolds(commit: Commit, g: Game, r: nat, delay: nat)
  {
    if g.stage.Resolved? then g.stage.winner == Defender
    else && g.lo <= g.hi
         && g.loCommitment == commit(g.lo)
         && g.hiCommitment == commit(g.hi)
         && (g.stage.Bisecting? && g.stage.offered.Some? ==> g.stage.offered.value == InteriorOf(commit, g))
         && g.defenderClock + Times(delay, if g.turn.Defender? then r else r + 1) >= g.clockBudget
  }

  /** No proof at all is ruled against a defender whose two claims it stands by. */
  ghost predicate SurvivesEveryProof<P(!new)>(commit: Commit, judge: (Game, P) -> Party, traceLength: nat) {
    forall g: Game, proof: P ::
      g.stage.OneStep? && g.hi == g.lo + 1 <= traceLength && g.loCommitment == commit(g.lo) && g.hiCommitment == commit(g.hi)
      ==> judge(g, proof) == Defender
  }

  lemma HonestDissection(commit: Commit, o: Opening, openedAt: nat, g: Game, r: nat, now: nat, rounds: nat, delay: nat)
    requires Playable(g) && Sound(o, openedAt, g, r) && DefenderHolds(commit, g, r, delay)
    requires Affordable(o, rounds, delay) && Prompt(g, Defender, now, delay)
    ensures var (h, answered) := Dissect(g, now, InteriorOf(commit, g));
            && DefenderHolds(commit, h, r, delay)
            && (g.turn.Defender? && !g.stage.Resolved? && g.lastMoveAt <= now ==> answered.Ok?)
  {
    if g.turn.Defender? && !g.stage.Resolved? {
      RoundInHand(o, openedAt, g, r, rounds, delay);
      PromptInTime(o, openedAt, g, r, Defender, now, delay);
    }
  }

  /** An honest dissection commits to the honest state at every boundary. */
  lemma HonestCommitments(commit: Commit, g: Game, i: nat)
    requires g.lo <= g.hi && g.loCommitment == commit(g.lo) && g.hiCommitment == commit(g.hi)
    requires i <= Segments(g.lo, g.hi, g.arity)
    ensures AllCommitments(g, InteriorOf(commit, g))[i] == commit(Boundaries(g.lo, g.hi, g.arity)[i])
  {
    BoundariesIncrease(g.lo, g.hi, g.arity, 0);
  }

  /** A selection changes nothing, or ends the game against the challenger, or is accepted. */
  lemma SelectionOutcome(g: Game, now: nat, i: nat)
    requires Playable(g) && Select(g, now, i).1.Err?
    ensures var h := Select(g, now, i).0;
            if g.stage.Resolved? || !h.stage.Resolved? then
              && h.stage == g.stage && h.turn == g.turn && h.lo == g.lo && h.hi == g.hi && h.arity == g.arity
              && h.loCommitment == g.loCommitment && h.hiCommitment == g.hiCommitment
              && h.defenderClock == g.defenderClock && h.clockBudget == g.clockBudget
            else h.stage.winner == Defender
  {
  }

  lemma SelectionEffect(g: Game, now: nat, i: nat)
    requires Playable(g) && Select(g, now, i).1.Ok?
    ensures g.stage.Bisecting? && g.stage.offered.Some? && g.turn.Challenger?
    ensures NarrowedTo(g, Select(g, now, i).0, i)
  {
  }

  /** Whichever segment of an honest dissection is selected, both its ends are honest. */
  lemma NarrowedHolds(commit: Commit, g: Game, h: Game, r: nat, i: nat, delay: nat)
    requires Playable(g) && g.stage.Bisecting? && g.stage.offered.Some? && g.turn.Challenger?
    requires DefenderHolds(commit, g, r, delay) && NarrowedTo(g, h, i)
    ensures DefenderHolds(commit, h, r + 1, delay)
  {
    HonestCommitments(commit, g, i);
    HonestCommitments(commit, g, i + 1);
    BoundariesIncrease(g.lo, g.hi, g.arity, i);
  }

  lemma AnySelection(commit: Commit, g: Game, r: nat, now: nat, i: nat, delay: nat)
    requires Playable(g) && DefenderHolds(commit, g, r, delay)
    ensures DefenderHolds(commit, Select(g, now, i).0, if Select(g, now, i).1.Ok? then r + 1 else r, delay)
  {
    if Select(g, now, i).1.Ok? {
      SelectionEffect(g, now, i);
      NarrowedHolds(commit, g, Select(g, now, i).0, r, i, delay);
    } else {
      SelectionOutcome(g, now, i);
    }
  }

  lemma DefenderInTime(commit: Commit, o: Opening, openedAt: nat, s: (Game, nat), now: nat, rounds: nat, delay: nat)
    requires Playable(s.0) && Sound(o, openedAt, s.0, s.1) && DefenderHolds(commit, s.0, s.1, delay)
    requires Affordable(o, rounds, delay) && Prompt(s.0, Defender, now, delay)
    ensures DefenderHolds(commit, After(s, Expires(now)).0, After(s, Expires(now)).1, delay)
  {
    if s.0.turn.Defender? && !s.0.stage.Resolved? {
      PromptInTime(o, openedAt, s.0, s.1, Defender, now, delay);
    }
  }

  lemma DefenderProved<P(!new)>(commit: Commit, judge: (Game, P) -> Party, o: Opening, openedAt: nat,
                                s: (Game, nat), now: nat, proof: P, delay: nat)
    requires Playable(s.0) && Sound(o, openedAt, s.0, s.1) && DefenderHolds(commit, s.0, s.1, delay)
    requires SurvivesEveryProof(commit, judge, o.traceLength)
    ensures var t := After(s, DefenderMove(commit, judge, s.0, ChallengerProves(now, proof)));
            DefenderHolds(commit, t.0, t.1, delay)
  {
  }

  lemma DefenderSelected(commit: Commit, s: (Game, nat), now: nat, index: nat, delay: nat)
    requires Playable(s.0) && DefenderHolds(commit, s.0, s.1, delay)
    ensures DefenderHolds(commit, After(s, Selects(now, index)).0, After(s, Selects(now, index)).1, delay)
  {
    AnySelection(commit, s.0, s.1, now, index, delay);
  }

  lemma DefenderDissects(commit: Commit, o: Opening, openedAt: nat, s: (Game, nat), now: nat, rounds: nat, delay: nat)
    requires Playable(s.0) && Sound(o, openedAt, s.0, s.1) && DefenderHolds(commit, s.0, s.1, delay)
    requires Affordable(o, rounds, delay) && Prompt(s.0, Defender, now, delay)
    ensures var t := After(s, Dissects(now, InteriorOf(commit, s.0))); DefenderHolds(commit, t.0, t.1, delay)
  {
    HonestDissection(commit, o, openedAt, s.0, s.1, now, rounds, delay);
  }

  lemma DefenderStep<P(!new)>(commit: Commit, judge: (Game, P) -> Party, o: Opening, openedAt: nat,
                              s: (Game, nat), e: DefenderEvent<P>, rounds: nat, delay: nat)
    requires Playable(s.0) && Sound(o, openedAt, s.0, s.1) && DefenderHolds(commit, s.0, s.1, delay)
    requires Affordable(o, rounds, delay) && Prompt(s.0, Defender, e.now, delay)
    requires SurvivesEveryProof(commit, judge, o.traceLength)
    ensures var t := After(s, DefenderMove(commit, judge, s.0, e));
            DefenderHolds(commit, t.0, t.1, delay)
  {
    match e
    case ChallengerSelects(now, index) => DefenderSelected(commit, s, now, index, delay);
    case ChallengerProves(now, proof) => DefenderProved(commit, judge, o, openedAt, s, now, proof, delay);
    case DefenderActs(now) => DefenderDissects(commit, o, openedAt, s, now, rounds, delay);
    case TimeAsked(now) => DefenderInTime(commit, o, openedAt, s, now, rounds, delay);
  }

  lemma {:induction false} DefenderRunHolds<P(!new)>(commit: Commit, judge: (Game, P) -> Party, o: Opening, openedAt: nat,
                                                     es: seq<DefenderEvent<P>>, rounds: nat, delay: nat)
    requires 1 <= o.traceLength && o.loCommitment == commit(0) && o.hiCommitment == commit(o.traceLength)
    requires Affordable(o, rounds, delay) && PromptDefender(commit, judge, o, openedAt, es, delay)
    requires SurvivesEveryProof(commit, judge, o.traceLength)
    ensures var s := DefenderRun(commit, judge, o, openedAt, es);
            Sound(o, openedAt, s.0, s.1) && DefenderHolds(commit, s.0, s.1, delay)
    decreases |es|
  {
    if es == [] {
      OpenSound(o, openedAt);
    } else {
      var front, e := es[..|es| - 1], es[|es| - 1];
      DefenderRunHolds(commit, judge, o, openedAt, front, rounds, delay);
      var s := DefenderRun(commit, judge, o, openedAt, front);
      PlaySound(o, openedAt, s, DefenderMove(commit, judge, s.0, e));
      DefenderStep(commit, judge, o, openedAt, s, e, rounds, delay);
    }
  }

  /** When the window's last quarter begins, a dispute against a prompt honest defender has been
      won by the defender, or the next clock check awards it. */
  lemma DefenderWins<P(!new)>(commit: Commit, judge: (Game, P) -> Party, o: Opening, openedAt: nat,
                              es: seq<DefenderEvent<P>>, rounds: nat, delay: nat, now: nat)
    requires 1 <= o.traceLength && o.loCommitment == commit(0) && o.hiCommitment == commit(o.traceLength)
    requires Affordable(o, rounds, delay) && SurvivesEveryProof(commit, judge, o.traceLength)
    requires PromptDefender(commit, judge, o, openedAt, es + [TimeAsked(now)], delay)
    requires openedAt + 3 * ClockBudget(o.challengeWindow) < now
    ensures var g := DefenderRun(commit, judge, o, openedAt, es + [TimeAsked(now)]).0;
            g.stage.Resolved? && g.stage.winner == Defender
  {
    var all := es + [TimeAsked(now)];
    assert all[..|all| - 1] == es;
    DefenderRunHolds(commit, judge, o, openedAt, es, rounds, delay);
    var (g, r) := DefenderRun(commit, judge, o, openedAt, es);
    if g.turn.Defender? && !g.stage.Resolved? {
      PromptInTime(o, openedAt, g, r, Defender, now, delay);
    }
  }
}
