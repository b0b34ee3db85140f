/** The chain of bonded assertions: posting, challenging, finalizing and cascading rejection. */
module Assertions {
  import opened Digests

  const CHALLENGE_WINDOW_FLOOR: nat := 24 * 60 * 60

  datatype Assertion = Assertion(
    parent: Digest, proposer: nat, preStateRoot: Digest, postStateRoot: Digest,
    batchCommitment: Digest, traceLength: nat, bond: nat)

  /** An assertion is identified by the hash of its contents, its parent's included. */
  function Id(a: Assertion): Digest {
    AssertionHash(a.parent, a.proposer, a.preStateRoot, a.postStateRoot, a.batchCommitment, a.traceLength, a.bond)
  }

  datatype Status = Pending | Challenged | Finalized | Rejected

  datatype Record = Record(assertion: Assertion, status: Status, postedAt: nat, openChallenges: nat)

  datatype ChainError =
    | UnknownAssertion
    | UnknownParent
    | ParentRejected
    | BrokenChain(got: Digest, expected: Digest)
    | BondTooSmall(offered: nat, required: nat)
    | WrongStatus(status: Status)
    | WindowOpen(remaining: nat)
    | TimeWentBackwards

  /** The chain's whole state. */
  datatype Chain = Chain(
    records: map<Digest, Record>, latestFinalized: Option<Digest>, window: nat, minimumBond: nat, now: nat)

  // ----- the operations, on values

  function Genesis(root: Digest): Assertion {
    Assertion(Zero, 0, Zero, root, Zero, 0, 0)
  }

  function NewChain(root: Digest, window: nat, minimumBond: nat): Chain {
    var g := Genesis(root);
    Chain(map[Id(g) := Record(g, Finalized, 0, 0)], Some(Id(g)), Max(window, CHALLENGE_WINDOW_FLOOR), minimumBond, 0)
  }

  function Post(c: Chain, a: Assertion): (Chain, Result<Digest, ChainError>) {
    if a.parent !in c.records then (c, Err(UnknownParent))
    else
      var parent := c.records[a.parent];
      if parent.status.Rejected? then (c, Err(ParentRejected))
      else if parent.assertion.postStateRoot != a.preStateRoot then
        (c, Err(BrokenChain(a.preStateRoot, parent.assertion.postStateRoot)))
      else if a.bond < c.minimumBond then (c, Err(BondTooSmall(a.bond, c.minimumBond)))
      else (c.(records := c.records[Id(a) := Record(a, Pending, c.now, 0)]), Ok(Id(a)))
  }

  function OpenChallenge(c: Chain, id: Digest): (Chain, Result<(), ChainError>) {
    if id !in c.records then (c, Err(UnknownAssertion))
    else
      var r := c.records[id];
      if r.status.Finalized? || r.status.Rejected? then (c, Err(WrongStatus(r.status)))
      else (c.(records := c.records[id := r.(status := Challenged, openChallenges := Min(r.openChallenges + 1, U32_MAX))]), Ok(()))
  }

  function DefenderWon(c: Chain, id: Digest): (Chain, Result<(), ChainError>) {
    if id !in c.records then (c, Err(UnknownAssertion))
    else
      var r := c.records[id];
      if !r.status.Challenged? then (c, Err(WrongStatus(r.status)))
      else
        var open := if r.openChallenges == 0 then 0 else r.openChallenges - 1;
        (c.(records := c.records[id := r.(openChallenges := open, status := if open == 0 then Pending else Challenged)]), Ok(()))
  }

  /** `x` is `ancestor`, or was built on it at some remove. */
  predicate Descends(ancestor: Digest, x: Digest) {
    x == ancestor || (x.AssertionHash? && Descends(ancestor, x.parent))
  }

  function Reject(r: Record): Record {
    r.(status := Rejected, openChallenges := 0)
  }

  /** The disputed assertion and everything built on it fall; nothing else changes. */
  function RejectFrom(records: map<Digest, Record>, id: Digest): map<Digest, Record> {
    map x | x in records :: if Descends(id, x) then Reject(records[x]) else records[x]
  }

  function ChallengerWon(c: Chain, id: Digest): (Chain, Result<(), ChainError>) {
    if id !in c.records then (c, Err(UnknownAssertion))
    else if !c.records[id].status.Challenged? then (c, Err(WrongStatus(c.records[id].status)))
    else (c.(records := RejectFrom(c.records, id)), Ok(()))
  }

  function Finalize(c: Chain, id: Digest): (Chain, Result<(), ChainError>) {
    if id !in c.records then (c, Err(UnknownAssertion))
    else
      var r := c.records[id];
      if !r.status.Pending? then (c, Err(WrongStatus(r.status)))
      else if r.assertion.parent !in c.records then (c, Err(WrongStatus(Rejected)))
      else if !c.records[r.assertion.parent].status.Finalized? then
        (c, Err(WrongStatus(c.records[r.assertion.parent].status)))
      else
        var elapsed := if c.now < r.postedAt then 0 else c.now - r.postedAt;
        if elapsed < c.window then (c, Err(WindowOpen(c.window - elapsed)))
        else (c.(records := c.records[id := r.(status := Finalized)], latestFinalized := Some(id)), Ok(()))
  }

  function Advance(c: Chain, to: nat): (Chain, Result<(), ChainError>) {
    if to < c.now then (c, Err(TimeWentBackwards)) else (c.(now := to), Ok(()))
  }

  ghost predicate Withdrawable(c: Chain, root: Digest) {
    exists id :: id in c.records && c.records[id].status.Finalized? && c.records[id].assertion.postStateRoot == root
  }

  // ----- snapshots

  datatype Snapshot = Snapshot(records: seq<Record>, latestFinalized: Option<Digest>, window: nat, minimumBond: nat, now: nat)

  function Restored(records: seq<Record>): map<Digest, Record> {
    if records == [] then map[]
    else
      var last := records[|records| - 1];
      Restored(records[..|records| - 1])[Id(last.assertion) := last]
  }

  function Restore(s: Snapshot): Chain {
    Chain(Restored(s.records), s.latestFinalized, Max(s.window, CHALLENGE_WINDOW_FLOOR), s.minimumBond, s.now)
  }

  /** `rs` lists the records of a map, in some order. */
  ghost predicate Lists(rs: seq<Record>, records: map<Digest, Record>) {
    forall r :: r in rs <==> r in records.Values
  }

  // ----- the chain as the source keeps it

  class AssertionChain {
    var records: map<Digest, Record>
    var latestFinalized: Option<Digest>
    const challengeWindow: nat
    const minimumBond: nat
    var now: nat

    function Now(): Chain
      reads this
    {
      Chain(records, latestFinalized, challengeWindow, minimumBond, now)
    }

    constructor (root: Digest, window: nat, bond: nat)
      ensures Now() == NewChain(root, window, bond)
    {
      var genesis := Assertion(Zero, 0, Zero, root, Zero, 0, 0);
      var id := Id(genesis);
      records := map[id := Record(genesis, Finalized, 0, 0)];
      latestFinalized, now := Some(id), 0;
      challengeWindow, minimumBond := Max(window, CHALLENGE_WINDOW_FLOOR), bond;
    }

    method AdvanceTo(to: nat) returns (r: Result<(), ChainError>)
      modifies this`now
      ensures (Now(), r) == Advance(old(Now()), to)
    {
      if to < now {
        return Err(TimeWentBackwards);
      }
      now := to;
      return Ok(());
    }

    method PostAssertion(a: Assertion) returns (r: Result<Digest, ChainError>)
      modifies this`records
      ensures (Now(), r) == Post(old(Now()), a)
    {
      if a.parent !in records {
        return Err(UnknownParent);
      }
      var parent := records[a.parent];
      if parent.status == Rejected {
        return Err(ParentRejected);
      }
      if parent.assertion.postStateRoot != a.preStateRoot {
        return Err(BrokenChain(a.preStateRoot, parent.assertion.postStateRoot));
      }
      if a.bond < minimumBond {
        return Err(BondTooSmall(a.bond, minimumBond));
      }
      var id := Id(a);
      records := records[id := Record(a, Pending, now, 0)];
      return Ok(id);
    }

    method Challenge(id: Digest) returns (r: Result<(), ChainError>)
      modifies this`records
      ensures (Now(), r) == OpenChallenge(old(Now()), id)
    {
      if id !in records {
        return Err(UnknownAssertion);
      }
      var record := records[id];
      match record.status
      case Finalized => return Err(WrongStatus(Finalized));
      case Rejected => return Err(WrongStatus(Rejected));
      case _ =>
        records := records[id := record.(status := Challenged, openChallenges := Min(record.openChallenges + 1, U32_MAX))];
        return Ok(());
    }

    method DefenderWins(id: Digest) returns (r: Result<(), ChainError>)
      modifies this`records
      ensures (Now(), r) == DefenderWon(old(Now()), id)
    {
      if id !in records {
        return Err(UnknownAssertion);
      }
      var record := records[id];
      if record.status != Challenged {
        return Err(WrongStatus(record.status));
      }
      record := record.(openChallenges := if record.openChallenges == 0 then 0 else record.openChallenges - 1);
      if record.openChallenges == 0 {
        record := record.(status := Pending);
      }
      records := records[id := record];
      return Ok(());
    }

    /** Rejects by a worklist. The list returned starts at the disputed assertion and names every
        assertion that newly fell exactly once, each after the one it was built on. */
    method ChallengerWins(id: Digest) returns (r: Result<seq<Digest>, ChainError>)
      requires Kept(Now())
      modifies this`records
      ensures Now() == ChallengerWon(old(Now()), id).0
      ensures match ChallengerWon(old(Now()), id).1
              case Err(e) => r == Err(e)
              case Ok(_) => r.Ok? && CascadeOrder(old(records), id, r.value)
    {
      if id !in records {
        return Err(UnknownAssertion);
      }
      if records[id].status != Challenged {
        return Err(WrongStatus(records[id].status));
      }
      ghost var c := Now();
      StartCascade(c, id);
      var rejected := Cascade(c, id);
      CascadeComplete(c, records, id);
      CascadeListed(c, records, id, rejected);
      return Ok(rejected);
    }

    /** The worklist. */
    method Cascade(ghost c: Chain, id: Digest) returns (rejected: seq<Digest>)
      requires Kept(c) && records == c.records && Cascading(c.records, records, id, [id])
      modifies this`records
      ensures Cascading(c.records, records, id, []) && Ordered(c.records, records, rejected)
      ensures rejected != [] && rejected[0] == id
    {
      rejected := [];
      var frontier := [id];
      while frontier != []
        invariant Cascading(c.records, records, id, frontier) && Ordered(c.records, records, rejected)
        invariant if rejected == [] then frontier == [id] else rejected[0] == id
        decreases |Standing(records)|
      {
        var current := frontier[|frontier| - 1];
        ghost var was, all, done := records, frontier, rejected;
        frontier := frontier[..|frontier| - 1];
        assert all == frontier + [current];
        records := records[current := Reject(records[current])];
        rejected := rejected + [current];
        var children := ChildrenOf(current);
        CascadeStep(c, was, id, frontier, current, children, done);
        frontier := frontier + children;
      }
    }

    /** The surviving children of an assertion, each once. */
    method ChildrenOf(parent: Digest) returns (children: seq<Digest>)
      ensures Children(records, parent, children)
    {
      children := [];
      var left := set x | x in records && records[x].assertion.parent == parent && !records[x].status.Rejected?;
      ghost var all := left;
      while left != {}
        invariant left <= all
        invariant forall x :: x in all <==> (x in left || x in children)
        invariant forall x :: x in children ==> x !in left
        invariant forall i, j :: 0 <= i < j < |children| ==> children[i] != children[j]
        decreases |left|
      {
        var x :| x in left;
        left := left - {x};
        children := children + [x];
      }
    }

    method FinalizeAssertion(id: Digest) returns (r: Result<(), ChainError>)
      modifies this`records, this`latestFinalized
      ensures (Now(), r) == Finalize(old(Now()), id)
    {
      if id !in records {
        return Err(UnknownAssertion);
      }
      var record := records[id];
      if record.status != Pending {
        return Err(WrongStatus(record.status));
      }
      var parent := record.assertion.parent;
      if parent !in records {
        return Err(WrongStatus(Rejected));
      }
      if records[parent].status != Finalized {
        return Err(WrongStatus(records[parent].status));
      }
      var elapsed := if now < record.postedAt then 0 else now - record.postedAt;
      if elapsed < challengeWindow {
        return Err(WindowOpen(challengeWindow - elapsed));
      }
      records := records[id := record.(status := Finalized)];
      latestFinalized := Some(id);
      return Ok(());
    }

    method IsWithdrawable(root: Digest) returns (yes: bool)
      ensures yes <==> Withdrawable(Now(), root)
    {
      var left := records.Keys;
      yes := false;
      while left != {}
        invariant left <= records.Keys
        invariant forall x :: x in records && x !in left ==>
          !(records[x].status.Finalized? && records[x].assertion.postStateRoot == root)
        decreases |left|
      {
        var x :| x in left;
        if records[x].status == Finalized && records[x].assertion.postStateRoot == root {
          return true;
        }
        left := left - {x};
      }
    }

    method TakeSnapshot() returns (s: Snapshot)
      ensures Lists(s.records, records)
      ensures s == Snapshot(s.records, latestFinalized, challengeWindow, minimumBond, now)
    {
      var rs: seq<Record> := [];
      var left := records.Keys;
      while left != {}
        invariant left <= records.Keys
        invariant forall r :: r in rs ==> r in records.Values
        invariant forall id :: id in records && id !in left ==> records[id] in rs
        decreases |left|
      {
        var x :| x in left;
        left := left - {x};
        rs := rs + [records[x]];
      }
      s := Snapshot(rs, latestFinalized, challengeWindow, minimumBond, now);
    }

    constructor FromSnapshot(s: Snapshot)
      ensures Now() == Restore(s)
    {
      var rebuilt: map<Digest, Record> := map[];
      for i := 0 to |s.records|
        invariant rebuilt == Restored(s.records[..i])
      {
        assert s.records[..i + 1][..i] == s.records[..i];
        rebuilt := rebuilt[Id(s.records[i].assertion) := s.records[i]];
      }
      assert s.records[..|s.records|] == s.records;
      records, latestFinalized, now := rebuilt, s.latestFinalized, s.now;
      challengeWindow, minimumBond := Max(s.window, CHALLENGE_WINDOW_FLOOR), s.minimumBond;
    }
  }

  // ----- the cascade

  ghost predicate Distinct(s: seq<Digest>) {
    forall i, j :: 0 <= i < j < |s| ==> s[i] != s[j]
  }

  ghost predicate Children(records: map<Digest, Record>, parent: Digest, children: seq<Digest>) {
    && Distinct(children)
    && forall x :: x in children <==> x in records && records[x].assertion.parent == parent && !records[x].status.Rejected?
  }

  function Standing(records: map<Digest, Record>): set<Digest> {
    set x | x in records && !records[x].status.Rejected?
  }

  ghost predicate Fallen(records: map<Digest, Record>, x: Digest) {
    x in records && records[x].status.Rejected?
  }

  /** Where one record stands while the cascade runs: untouched or rejected as a descendant, and
      on the frontier exactly when it is standing and due. */
  ghost predicate CascadePoint(before: map<Digest, Record>, records: map<Digest, Record>, id: Digest, due: bool, x: Digest)
    requires x in records && x in before
  {
    && Id(records[x].assertion) == x
    && (records[x] == before[x] || (Descends(id, x) && records[x] == Reject(before[x])))
    && (records[x].status.Rejected? ==> records[x] == Reject(before[x]))
    && (due <==> !records[x].status.Rejected? && (x == id || Fallen(records, records[x].assertion.parent)))
    && (due ==> Descends(id, x))
  }

  ghost predicate PointIn(before: map<Digest, Record>, records: map<Digest, Record>, id: Digest, frontier: seq<Digest>, x: Digest)
    requires x in records && x in before
  {
    CascadePoint(before, records, id, x in frontier, x)
  }

  ghost predicate Cascading(before: map<Digest, Record>, records: map<Digest, Record>, id: Digest, frontier: seq<Digest>) {
    && records.Keys == before.Keys && id in records && Distinct(frontier)
    && (forall x :: x in frontier ==> x in records)
    && (forall x {:trigger PointIn(before, records, id, frontier, x)} ::
          x in records ==> PointIn(before, records, id, frontier, x))
  }

  /** How many assertions an identifier is built on. */
  function Generation(x: Digest): nat {
    if x.AssertionHash? then 1 + Generation(x.parent) else 0
  }

  lemma {:induction false} DescendantsAreLater(ancestor: Digest, x: Digest)
    requires Descends(ancestor, x)
    ensures Generation(ancestor) <= Generation(x)
    decreases x
  {
    if x != ancestor {
      DescendantsAreLater(ancestor, x.parent);
    }
  }

  lemma PopMembership(rest: seq<Digest>, current: Digest, x: Digest)
    requires Distinct(rest + [current])
    ensures x in rest + [current] <==> x in rest || x == current
    ensures Distinct(rest) && current !in rest
  {
    var frontier := rest + [current];
    assert forall i :: 0 <= i < |rest| ==> frontier[i] == rest[i];
    assert frontier[|rest|] == current;
  }

  lemma PointAfterPop(before: map<Digest, Record>, records: map<Digest, Record>, id: Digest, current: Digest, due: bool, x: Digest)
    requires records.Keys == before.Keys && x in records && current in records
    requires CascadePoint(before, records, id, due, x) && CascadePoint(before, records, id, true, current)
    ensures var after := records[current := Reject(records[current])];
            var child := after[x].assertion.parent == current && !after[x].status.Rejected?;
            && CascadePoint(before, after, id, (due && x != current) || child, x)
            && !(due && x != current && child)
  {
    if x.AssertionHash? && x.parent == current {
      DescendantsAreLater(id, current);
    }
  }

  /** Taking one assertion off the frontier, rejecting it and adding its children. */
  lemma PopKeepsCascading(before: map<Digest, Record>, records: map<Digest, Record>, id: Digest, rest: seq<Digest>,
                          current: Digest, children: seq<Digest>)
    requires Cascading(before, records, id, rest + [current])
    requires current in records && Children(records[current := Reject(records[current])], current, children)
    ensures Cascading(before, records[current := Reject(records[current])], id, rest + children)
  {
    var frontier := rest + [current];
    var after := records[current := Reject(records[current])];
    PopMembership(rest, current, current);
    forall x | x in after
      ensures PointIn(before, after, id, rest + children, x) && !(x in rest && x in children)
    {
      PopMembership(rest, current, x);
      assert PointIn(before, records, id, frontier, x) && PointIn(before, records, id, frontier, current);
      PointAfterPop(before, records, id, current, x in frontier, x);
    }
    DisjointDistinct(rest, children);
  }

  lemma DisjointDistinct(a: seq<Digest>, b: seq<Digest>)
    requires Distinct(a) && Distinct(b) && forall x :: x in a ==> x !in b
    ensures Distinct(a + b)
  {
    forall i, j | 0 <= i < j < |a + b| ensures (a + b)[i] != (a + b)[j] {
      if i < |a| <= j {
        assert a[i] in a && b[j - |a|] in b;
      }
    }
  }

  lemma StartCascade(c: Chain, id: Digest)
    requires Kept(c) && id in c.records && c.records[id].status.Challenged?
    ensures Cascading(c.records, c.records, id, [id])
  {
    forall x | x in c.records ensures PointIn(c.records, c.records, id, [id], x) {
      assert RecordOk(c, x);
      if c.records[x].assertion.parent in c.records {
        assert RecordOk(c, c.records[x].assertion.parent);
      }
    }
  }

  /** What the list of rejected ids says while the cascade runs. */
  ghost predicate Ordered(before: map<Digest, Record>, records: map<Digest, Record>, rejected: seq<Digest>)
    requires records.Keys == before.Keys
  {
    && Distinct(rejected)
    && (forall x :: x in rejected <==> x in records && records[x].status.Rejected? && !before[x].status.Rejected?)
    && ParentsFirst(rejected)
  }

  ghost predicate ParentsFirst(rejected: seq<Digest>) {
    forall i :: 0 < i < |rejected| ==> rejected[i].AssertionHash? && rejected[i].parent in rejected[..i]
  }

  ghost predicate CascadeOrder(before: map<Digest, Record>, id: Digest, rejected: seq<Digest>) {
    && Distinct(rejected) && rejected != [] && rejected[0] == id && ParentsFirst(rejected)
    && (forall x :: x in rejected <==> x in before && Descends(id, x) && !before[x].status.Rejected?)
  }

  lemma PopKeepsOrder(c: Chain, records: map<Digest, Record>, id: Digest, frontier: seq<Digest>, current: Digest, rejected: seq<Digest>)
    requires Kept(c) && Cascading(c.records, records, id, frontier) && current in frontier
    requires Ordered(c.records, records, rejected) && (rejected == [] ==> current == id) && (rejected != [] ==> rejected[0] == id)
    ensures Ordered(c.records, records[current := Reject(records[current])], rejected + [current])
  {
    assert PointIn(c.records, records, id, frontier, current);
    if rejected != [] {
      ParentFellFirst(c, records, id, current, rejected);
    }
    ParentsFirstSnoc(rejected, current);
  }

  lemma CascadeStep(c: Chain, records: map<Digest, Record>, id: Digest, rest: seq<Digest>, current: Digest,
                    children: seq<Digest>, rejected: seq<Digest>)
    requires Kept(c) && Cascading(c.records, records, id, rest + [current]) && Ordered(c.records, records, rejected)
    requires current in records && Children(records[current := Reject(records[current])], current, children)
    requires (rejected == [] ==> current == id) && (rejected != [] ==> rejected[0] == id)
    ensures var after := records[current := Reject(records[current])];
            && Cascading(c.records, after, id, rest + children) && Ordered(c.records, after, rejected + [current])
            && |Standing(after)| < |Standing(records)|
  {
    var after := records[current := Reject(records[current])];
    PopMembership(rest, current, current);
    PopKeepsOrder(c, records, id, rest + [current], current, rejected);
    PopKeepsCascading(c.records, records, id, rest, current, children);
    assert PointIn(c.records, records, id, rest + [current], current);
    assert Standing(after) == Standing(records) - {current};
  }

  lemma ParentsFirstSnoc(rejected: seq<Digest>, current: Digest)
    requires ParentsFirst(rejected) && (rejected != [] ==> current.AssertionHash? && current.parent in rejected)
    ensures ParentsFirst(rejected + [current])
  {
    var more := rejected + [current];
    forall i | 0 < i < |more| ensures more[i].AssertionHash? && more[i].parent in more[..i] {
      assert more[..i] == rejected[..i];
      if i < |rejected| {
        assert more[i] == rejected[i];
      } else {
        assert rejected[..i] == rejected;
      }
    }
  }

  lemma ParentFellFirst(c: Chain, records: map<Digest, Record>, id: Digest, current: Digest, rejected: seq<Digest>)
    requires Kept(c) && records.Keys == c.records.Keys && current in records
    requires CascadePoint(c.records, records, id, true, current)
    requires Ordered(c.records, records, rejected) && rejected != [] && rejected[0] == id
    ensures current.AssertionHash? && current.parent in rejected
  {
    assert id in rejected;
    assert RecordOk(c, current) && RecordOk(c, records[current].assertion.parent);
  }

  /** Nothing left to do means every descendant has fallen. */
  lemma {:induction false} DescendantFell(c: Chain, records: map<Digest, Record>, id: Digest, x: Digest)
    requires Kept(c) && Cascading(c.records, records, id, []) && x in records && Descends(id, x)
    ensures records[x].status.Rejected?
    decreases x
  {
    assert RecordOk(c, x) && RecordOk(c, id);
    assert PointIn(c.records, records, id, [], x);
    if x != id {
      DescendantFell(c, records, id, x.parent);
    }
  }

  lemma CascadeComplete(c: Chain, records: map<Digest, Record>, id: Digest)
    requires Kept(c) && Cascading(c.records, records, id, [])
    ensures records == RejectFrom(c.records, id)
  {
    forall x | x in records ensures records[x] == RejectFrom(c.records, id)[x] {
      assert PointIn(c.records, records, id, [], x);
      if Descends(id, x) {
        DescendantFell(c, records, id, x);
      }
    }
  }

  lemma CascadeListed(c: Chain, records: map<Digest, Record>, id: Digest, rejected: seq<Digest>)
    requires Kept(c) && Cascading(c.records, records, id, []) && Ordered(c.records, records, rejected)
    requires rejected != [] && rejected[0] == id
    ensures CascadeOrder(c.records, id, rejected)
  {
    forall x | x in c.records ensures x in rejected <==> Descends(id, x) && !c.records[x].status.Rejected? {
      assert PointIn(c.records, records, id, [], x);
      if Descends(id, x) {
        DescendantFell(c, records, id, x);
      }
    }
  }

  // ----- what every run keeps

  /** An assertion's record is consistent with itself, its parent and the clock. */
  ghost predicate RecordOk(c: Chain, id: Digest)
    requires id in c.records
  {
    var r := c.records[id];
    var parent := r.assertion.parent;
    && Id(r.assertion) == id
    && (r.status.Challenged? <==> r.openChallenges > 0)
    && r.postedAt <= c.now
    && (if parent.Zero? then r.status.Finalized?
        else && parent in c.records
             && c.records[parent].assertion.postStateRoot == r.assertion.preStateRoot
             && c.minimumBond <= r.assertion.bond
             && (c.records[parent].status.Rejected? ==> r.status.Rejected?))
  }

  ghost predicate Kept(c: Chain) {
    CHALLENGE_WINDOW_FLOOR <= c.window && forall id {:trigger RecordOk(c, id)} :: id in c.records ==> RecordOk(c, id)
  }

  /** A finalized claim stands on a finalized one and has aged a whole window. */
  ghost predicate Earned(c: Chain, id: Digest)
    requires id in c.records
  {
    var r := c.records[id];
    r.status.Finalized? && !r.assertion.parent.Zero? ==>
      && r.assertion.parent in c.records && c.records[r.assertion.parent].status.Finalized?
      && r.postedAt + c.window <= c.now
  }

  ghost predicate Safe(c: Chain) {
    && Kept(c)
    && (forall id {:trigger Earned(c, id)} :: id in c.records ==> Earned(c, id))
    && c.latestFinalized.Some? && c.latestFinalized.value in c.records
    && c.records[c.latestFinalized.value].status.Finalized?
  }

  datatype Op =
    | PostOp(a: Assertion)
    | ChallengeOp(id: Digest)
    | DefenderWonOp(id: Digest)
    | ChallengerWonOp(id: Digest)
    | FinalizeOp(id: Digest)
    | AdvanceOp(to: nat)

  function Step(c: Chain, op: Op): Chain {
    match op
    case PostOp(a) => Post(c, a).0
    case ChallengeOp(id) => OpenChallenge(c, id).0
    case DefenderWonOp(id) => DefenderWon(c, id).0
    case ChallengerWonOp(id) => ChallengerWon(c, id).0
    case FinalizeOp(id) => Finalize(c, id).0
    case AdvanceOp(to) => Advance(c, to).0
  }

  function Run(c: Chain, ops: seq<Op>): Chain
    decreases |ops|
  {
    if ops == [] then c else Step(Run(c, ops[..|ops| - 1]), ops[|ops| - 1])
  }

  /** The step posts again an assertion that is already final. */
  ghost predicate Reposts(c: Chain, op: Op) {
    op.PostOp? && Id(op.a) in c.records && c.records[Id(op.a)].status.Finalized?
  }

  /** No step of the run posts again an assertion that is already final. */
  ghost predicate Fresh(c: Chain, ops: seq<Op>)
    decreases |ops|
  {
    ops != [] ==> Fresh(c, ops[..|ops| - 1]) && !Reposts(Run(c, ops[..|ops| - 1]), ops[|ops| - 1])
  }

  lemma NewChainSafe(root: Digest, window: nat, minimumBond: nat)
    ensures Safe(NewChain(root, window, minimumBond))
  {
  }

  /** Changing the standing of one record, neither from nor to rejected, keeps every record consistent. */
  lemma UpdateKeeps(c: Chain, id: Digest, r: Record)
    requires Kept(c) && id in c.records && !c.records[id].status.Rejected? && !r.status.Rejected?
    requires r.assertion == c.records[id].assertion && r.postedAt == c.records[id].postedAt
    requires (r.status.Challenged? <==> r.openChallenges > 0) && !r.assertion.parent.Zero?
    ensures Kept(c.(records := c.records[id := r]))
  {
    var d := c.(records := c.records[id := r]);
    forall x | x in d.records ensures RecordOk(d, x) {
      assert RecordOk(c, x);
    }
  }

  lemma PostKeeps(c: Chain, a: Assertion)
    requires Kept(c) && Post(c, a).1.Ok?
    ensures Kept(Post(c, a).0)
  {
    var d := Post(c, a).0;
    assert RecordOk(c, a.parent);
    if Id(a) in c.records {
      assert RecordOk(c, Id(a));
    }
    forall x | x in d.records ensures RecordOk(d, x) {
      if x in c.records {
        assert RecordOk(c, x);
      }
    }
  }

  lemma CascadeKeeps(c: Chain, id: Digest)
    requires Kept(c) && ChallengerWon(c, id).1.Ok?
    ensures Kept(ChallengerWon(c, id).0)
  {
    forall x | x in c.records ensures RecordOk(ChallengerWon(c, id).0, x) {
      CascadeKeepsRecord(c, id, x);
    }
  }

  lemma CascadeKeepsRecord(c: Chain, id: Digest, x: Digest)
    requires Kept(c) && id in c.records && c.records[id].status.Challenged? && x in c.records
    ensures RecordOk(c.(records := RejectFrom(c.records, id)), x)
  {
    assert RecordOk(c, id) && RecordOk(c, x);
    var parent := c.records[x].assertion.parent;
    if !parent.Zero? {
      assert RecordOk(c, parent);
      assert Descends(id, parent) ==> Descends(id, x);
    } else {
      assert !Descends(id, x);
    }
  }

  lemma AdvanceKeeps(c: Chain, to: nat)
    requires Kept(c)
    ensures Kept(Advance(c, to).0)
  {
    var d := Advance(c, to).0;
    forall x | x in d.records ensures RecordOk(d, x) {
      assert RecordOk(c, x);
    }
  }

  lemma FinalizeKeeps(c: Chain, id: Digest)
    requires Kept(c) && Finalize(c, id).1.Ok?
    ensures Kept(Finalize(c, id).0)
  {
    assert RecordOk(c, id);
    var r := c.records[id].(status := Finalized);
    UpdateKeeps(c, id, r);
    var e := c.(records := c.records[id := r]);
    var d := Finalize(c, id).0;
    forall x | x in d.records ensures RecordOk(d, x) {
      assert RecordOk(e, x);
    }
  }

  /** Every step, a repeated post included, keeps every record consistent. */
  lemma StepKeeps(c: Chain, op: Op)
    requires Kept(c)
    ensures Kept(Step(c, op))
  {
    match op
    case PostOp(a) => if Post(c, a).1.Ok? { PostKeeps(c, a); }
    case ChallengeOp(id) =>
      if OpenChallenge(c, id).1.Ok? {
        assert RecordOk(c, id);
        UpdateKeeps(c, id, OpenChallenge(c, id).0.records[id]);
      }
    case DefenderWonOp(id) =>
      if DefenderWon(c, id).1.Ok? {
        assert RecordOk(c, id);
        UpdateKeeps(c, id, DefenderWon(c, id).0.records[id]);
      }
    case ChallengerWonOp(id) => if ChallengerWon(c, id).1.Ok? { CascadeKeeps(c, id); }
    case FinalizeOp(id) => if Finalize(c, id).1.Ok? { FinalizeKeeps(c, id); }
    case AdvanceOp(to) => AdvanceKeeps(c, to);
  }

  lemma {:induction false} RunKeeps(root: Digest, window: nat, minimumBond: nat, ops: seq<Op>)
    ensures Kept(Run(NewChain(root, window, minimumBond), ops))
    decreases |ops|
  {
    if ops == [] {
      NewChainSafe(root, window, minimumBond);
    } else {
      RunKeeps(root, window, minimumBond, ops[..|ops| - 1]);
      StepKeeps(Run(NewChain(root, window, minimumBond), ops[..|ops| - 1]), ops[|ops| - 1]);
    }
  }

  // ----- finality

  /** Every ancestor of a finalized claim is finalized, each continuing its parent's state root. */
  lemma {:induction false} AncestorsFinalized(c: Chain, id: Digest, ancestor: Digest)
    requires Safe(c) && id in c.records && c.records[id].status.Finalized?
    requires Descends(ancestor, id) && !ancestor.Zero?
    ensures ancestor in c.records && c.records[ancestor].status.Finalized?
    ensures var a := c.records[ancestor].assertion;
            a.parent.Zero? || (a.parent in c.records && c.records[a.parent].assertion.postStateRoot == a.preStateRoot)
    decreases id
  {
    assert RecordOk(c, id) && Earned(c, id);
    if ancestor != id {
      AncestorsFinalized(c, id.parent, ancestor);
    }
  }

  /** The exact condition for a final claim to survive a step: it is not posted again. A repeated
      post is accepted for every final claim but genesis, and sets it back to pending. */
  lemma FinalStaysIff(c: Chain, op: Op, id: Digest)
    requires Safe(c) && id in c.records && c.records[id].status.Finalized?
    ensures id in Step(c, op).records
    ensures Step(c, op).records[id] == c.records[id] <==> !(op == PostOp(c.records[id].assertion) && !c.records[id].assertion.parent.Zero?)
    ensures Step(c, op).records[id] != c.records[id] ==> Step(c, op).records[id].status.Pending?
  {
    assert RecordOk(c, id) && Earned(c, id);
    match op
    case PostOp(a) =>
      if a.parent in c.records {
        assert RecordOk(c, a.parent);
      }
    case ChallengerWonOp(bad) =>
      if ChallengerWon(c, bad).1.Ok? && Descends(bad, id) {
        assert RecordOk(c, bad);
        AncestorsFinalized(c, id, bad);
      }
    case _ =>
  }

  /** No final claim is ever among those a lost challenge takes down. */
  lemma CascadeSparesFinal(c: Chain, bad: Digest, id: Digest)
    requires Safe(c) && ChallengerWon(c, bad).1.Ok? && id in c.records && c.records[id].status.Finalized?
    ensures !Descends(bad, id) && ChallengerWon(c, bad).0.records[id] == c.records[id]
  {
    assert RecordOk(c, bad);
    if Descends(bad, id) {
      AncestorsFinalized(c, id, bad);
    }
  }

  /** A claim that is final after a step was final before it, or has just earned it. */
  lemma FinalBefore(c: Chain, op: Op, x: Digest)
    requires Kept(c) && x in Step(c, op).records && Step(c, op).records[x].status.Finalized?
    ensures x in c.records && c.records[x].assertion == Step(c, op).records[x].assertion
    ensures c.records[x].postedAt == Step(c, op).records[x].postedAt && c.now <= Step(c, op).now
    ensures c.records[x].status.Finalized? ||
            var parent := c.records[x].assertion.parent;
            parent in c.records && c.records[parent].status.Finalized? && c.records[x].postedAt + c.window <= c.now
  {
    if x in c.records {
      assert RecordOk(c, x);
    }
  }

  lemma StepEarns(c: Chain, op: Op, x: Digest)
    requires Safe(c) && !Reposts(c, op) && x in Step(c, op).records
    ensures Earned(Step(c, op), x)
  {
    if Step(c, op).records[x].status.Finalized? {
      FinalBefore(c, op, x);
      assert RecordOk(c, x) && Earned(c, x);
      var parent := c.records[x].assertion.parent;
      if !parent.Zero? {
        assert RecordOk(c, parent);
        FinalStaysIff(c, op, parent);
      }
    }
  }

  lemma StepSafe(c: Chain, op: Op)
    requires Safe(c) && !Reposts(c, op)
    ensures Safe(Step(c, op))
  {
    StepKeeps(c, op);
    forall x | x in Step(c, op).records ensures Earned(Step(c, op), x) {
      StepEarns(c, op, x);
    }
    assert RecordOk(c, c.latestFinalized.value);
    FinalStaysIff(c, op, c.latestFinalized.value);
  }

  lemma {:induction false} RunSafe(c: Chain, ops: seq<Op>)
    requires Safe(c) && Fresh(c, ops)
    ensures Safe(Run(c, ops))
    decreases |ops|
  {
    if ops != [] {
      RunSafe(c, ops[..|ops| - 1]);
      StepSafe(Run(c, ops[..|ops| - 1]), ops[|ops| - 1]);
    }
  }

  /** Once final, final for the rest of every run, record unchanged. */
  lemma {:induction false} FinalForever(c: Chain, ops: seq<Op>, id: Digest)
    requires Safe(c) && Fresh(c, ops) && id in c.records && c.records[id].status.Finalized?
    ensures id in Run(c, ops).records && Run(c, ops).records[id] == c.records[id]
    decreases |ops|
  {
    if ops != [] {
      var front := ops[..|ops| - 1];
      FinalForever(c, front, id);
      RunSafe(c, front);
      assert RecordOk(Run(c, front), id);
      FinalStaysIff(Run(c, front), ops[|ops| - 1], id);
    }
  }

  /** A root withdrawals are honoured against stays one. */
  lemma WithdrawableForever(c: Chain, ops: seq<Op>, root: Digest)
    requires Safe(c) && Fresh(c, ops) && Withdrawable(c, root)
    ensures Withdrawable(Run(c, ops), root)
  {
    var id :| id in c.records && c.records[id].status.Finalized? && c.records[id].assertion.postStateRoot == root;
    FinalForever(c, ops, id);
    assert Run(c, ops).records[id].status.Finalized?;
  }

  // ----- the order a cascade is listed in

  /** Later assertions come no earlier in the list than those they are built after. */
  ghost predicate MostRecentFirst(rejected: seq<Digest>) {
    forall i, j :: 0 <= i < j < |rejected| ==> Generation(rejected[i]) >= Generation(rejected[j])
  }

  ghost predicate SurvivingChild(records: map<Digest, Record>, id: Digest, x: Digest) {
    x in records && records[x].assertion.parent == id && !records[x].status.Rejected?
  }

  /** The documented order, most recent first, is kept exactly when the cascade is a single
      assertion: when nothing standing was built on the disputed one. */
  lemma MostRecentFirstIff(c: Chain, id: Digest, rejected: seq<Digest>)
    requires Kept(c) && id in c.records && CascadeOrder(c.records, id, rejected)
    ensures MostRecentFirst(rejected) <==> |rejected| == 1
    ensures |rejected| == 1 <==> !exists x :: SurvivingChild(c.records, id, x)
  {
    if |rejected| > 1 {
      var x := rejected[1];
      assert x.parent in rejected[..1] && x in rejected;
      assert RecordOk(c, x) && SurvivingChild(c.records, id, x);
      assert Generation(x) > Generation(rejected[0]);
    } else if x :| SurvivingChild(c.records, id, x) {
      assert RecordOk(c, x) && RecordOk(c, id);
      assert Descends(id, x.parent) && x in rejected;
      DescendantsAreLater(id, id);
      assert Generation(x) == 1 + Generation(id);
    }
  }

  /** A chain of two claims, the lower challenged: the cascade lists it before the one built on it. */
  lemma CascadeListsParentFirst(root: Digest, window: nat, a: Assertion, b: Assertion, rejected: seq<Digest>)
    requires a.parent == Id(Genesis(root)) && a.preStateRoot == root && a.bond == b.bond == 0
    requires b.parent == Id(a) && b.preStateRoot == a.postStateRoot
    requires CascadeOrder(Run(NewChain(root, window, 0), [PostOp(a), PostOp(b), ChallengeOp(Id(a))]).records, Id(a), rejected)
    ensures rejected == [Id(a), Id(b)] && !MostRecentFirst(rejected)
  {
    var c0 := NewChain(root, window, 0);
    var ops := [PostOp(a), PostOp(b), ChallengeOp(Id(a))];
    assert ops[..2][..1] == ops[..1] && ops[..1][..0] == [];
    var c1 := Step(c0, ops[0]);
    assert Run(c0, ops[..1]) == c1;
    var c2 := Step(c1, ops[1]);
    assert Run(c0, ops[..2]) == c2;
    var c3 := Step(c2, ops[2]);
    assert Generation(Id(b)) == 1 + Generation(Id(a)) == 2 + Generation(Id(Genesis(root)));
    assert c3.records.Keys == {Id(Genesis(root)), Id(a), Id(b)};
    assert !Descends(Id(a), Id(Genesis(root)));
    assert Descends(Id(a), Id(b));
    ListOfTwo(rejected, Id(a), Id(b));
  }

  lemma ListOfTwo(s: seq<Digest>, x: Digest, y: Digest)
    requires Distinct(s) && s != [] && s[0] == x && x != y && forall z :: z in s <==> z == x || z == y
    ensures s == [x, y]
  {
    assert y in s;
    assert s[1] in s && s[1] != s[0];
    SameSize(s, {x, y});
  }

  lemma {:induction false} SameSize(s: seq<Digest>, elements: set<Digest>)
    requires Distinct(s) && forall z :: z in s <==> z in elements
    ensures |s| == |elements|
    decreases |s|
  {
    if s != [] {
      var front, last := s[..|s| - 1], s[|s| - 1];
      assert forall z :: z in s <==> z in front || z == last;
      assert last !in front;
      SameSize(front, elements - {last});
    } else {
      assert elements == {};
    }
  }

  // ----- snapshots

  lemma {:induction false} RestoredFrom(c: Chain, rs: seq<Record>)
    requires Kept(c) && forall r :: r in rs ==> r in c.records.Values
    ensures forall r :: r in rs ==> Id(r.assertion) in Restored(rs)
    ensures forall x :: x in Restored(rs) ==> x in c.records && Restored(rs)[x] == c.records[x]
    decreases |rs|
  {
    if rs != [] {
      var front, last := rs[..|rs| - 1], rs[|rs| - 1];
      RestoredFrom(c, front);
      assert last in rs && last in c.records.Values;
      var id :| id in c.records && c.records[id] == last;
      assert RecordOk(c, id);
      assert forall r :: r in rs ==> r in front || r == last;
    }
  }

  /** Restoring a snapshot of a chain, whatever order its records were written in, gives the chain
      back. */
  lemma RestoreIsIdentity(c: Chain, rs: seq<Record>)
    requires Kept(c) && Lists(rs, c.records)
    ensures Restore(Snapshot(rs, c.latestFinalized, c.window, c.minimumBond, c.now)) == c
  {
    RestoredFrom(c, rs);
    forall x | x in c.records ensures x in Restored(rs) {
      assert RecordOk(c, x) && c.records[x] in rs;
    }
    assert Restored(rs) == c.records;
  }
}
