/** Council authorisation: who must have signed, and what a signature may change. */
module Governance {
  import opened Digests
  import opened Codec
  import opened Records
  import opened Gas

  function Ascii(s: string): Bytes {
    seq(|s|, i requires 0 <= i < |s| => s[i] as int % 256)
  }

  datatype GovernanceUpdate =
    | SetGasAsset(record: WhitelistedAsset)
    | SetParameter(name: Bytes, value: nat)
    | SetJwk(issHash: Bytes32, jwkHash: Bytes32, active: bool)
    | SetFeeMarket(floor: nat, target: nat)
    | SetFeeSplit(split: FeeSplit)
    | DisableGasAsset(asset: nat)

  datatype CouncilSignature = CouncilSignature(index: nat, signature: Bytes64)

  datatype GovernanceError =
    | MalformedCouncil
    | UnknownSigner
    | UnorderedSigners
    | BadSignature(index: nat)
    | ThresholdNotMet(supplied: nat, required: nat)
    | UngovernableParameter(name: Bytes)
    | InvalidAssetRate
    | InvalidFeeParameter
    | WrongEpoch(expected: nat, signed: nat)

  /** Ed25519 as the source uses it: whether a key is usable, and whether a signature verifies. */
  datatype Ed25519 = Ed25519(usable: Bytes -> bool, verifies: (Bytes, Digest, Bytes) -> bool)

  const GOVERNABLE_PARAMETER: Bytes := Ascii("batch.max_transactions")

  /** The updates no signature can authorise are refused here. */
  function CheckPermitted(u: GovernanceUpdate): Result<(), GovernanceError> {
    match u
    case SetParameter(name, _) =>
      if name == GOVERNABLE_PARAMETER then Ok(()) else Err(UngovernableParameter(name))
    case SetGasAsset(record) => if record.rate == 0 then Err(InvalidAssetRate) else Ok(())
    case SetFeeMarket(floor, target) => if floor == 0 || target == 0 then Err(InvalidFeeParameter) else Ok(())
    case SetFeeSplit(split) => if SplitOk(split) then Ok(()) else Err(InvalidFeeParameter)
    case SetJwk(_, _, _) => Ok(())
    case DisableGasAsset(_) => Ok(())
  }

  predicate GuardianMayApply(u: GovernanceUpdate) {
    u.DisableGasAsset?
  }

  /** The signatures a payload needs. */
  function Required(c: Council, guardian: bool): nat {
    if guardian && c.guardianThreshold > 0 then c.guardianThreshold else c.threshold
  }

  /** The first fault in `sigs[i..]`, given the seat before them (`-1` for none). */
  function SignatureFault(ed: Ed25519, c: Council, digest: Digest, sigs: seq<CouncilSignature>, i: nat, prev: int)
    : Option<GovernanceError>
    requires i <= |sigs|
    decreases |sigs| - i
  {
    if i == |sigs| then None
    else
      var s := sigs[i];
      if s.index <= prev then Some(UnorderedSigners)
      else if s.index >= |c.members| then Some(UnknownSigner)
      else if !ed.usable(c.members[s.index]) then Some(MalformedCouncil)
      else if !ed.verifies(c.members[s.index], digest, s.signature) then Some(BadSignature(s.index))
      else SignatureFault(ed, c, digest, sigs, i + 1, s.index)
  }

  function VerifyCouncilSignatures(ed: Ed25519, c: Council, digest: Digest, sigs: seq<CouncilSignature>, guardian: bool)
    : Result<(), GovernanceError>
  {
    var required := Required(c, guardian);
    if required == 0 then Err(ThresholdNotMet(0, 0))
    else
      var fault := SignatureFault(ed, c, digest, sigs, 0, -1);
      if fault.Some? then Err(fault.value)
      else
        var supplied := Min(|sigs|, U32_MAX);
        if supplied < required then Err(ThresholdNotMet(supplied, required)) else Ok(())
  }

  /** The loop over the offered signatures. */
  method RunVerifyCouncilSignatures(ed: Ed25519, c: Council, digest: Digest, sigs: seq<CouncilSignature>, guardian: bool)
    returns (r: Result<(), GovernanceError>)
    ensures r == VerifyCouncilSignatures(ed, c, digest, sigs, guardian)
  {
    var required := Required(c, guardian);
    if required == 0 {
      return Err(ThresholdNotMet(0, 0));
    }
    var previous: int := -1;
    for i := 0 to |sigs|
      invariant SignatureFault(ed, c, digest, sigs, 0, -1) == SignatureFault(ed, c, digest, sigs, i, previous)
    {
      var s := sigs[i];
      if s.index <= previous {
        return Err(UnorderedSigners);
      }
      if s.index >= |c.members| {
        return Err(UnknownSigner);
      }
      if !ed.usable(c.members[s.index]) {
        return Err(MalformedCouncil);
      }
      if !ed.verifies(c.members[s.index], digest, s.signature) {
        return Err(BadSignature(s.index));
      }
      previous := s.index;
    }
    var supplied := Min(|sigs|, U32_MAX);
    r := if supplied < required then Err(ThresholdNotMet(supplied, required)) else Ok(());
  }

  /** The seats whose holder's signature over `digest` was offered and verifies. */
  ghost function SignedSeats(ed: Ed25519, c: Council, digest: Digest, sigs: seq<CouncilSignature>): set<nat> {
    set i | 0 <= i < |sigs| && sigs[i].index < |c.members| &&
            ed.verifies(c.members[sigs[i].index], digest, sigs[i].signature) :: sigs[i].index
  }

  ghost predicate Increasing(sigs: seq<CouncilSignature>, i: nat, prev: int) {
    && (forall j :: i <= j < |sigs| ==> prev < sigs[j].index)
    && (forall j, l :: i <= j < l < |sigs| ==> sigs[j].index < sigs[l].index)
  }

  ghost predicate AllVerify(ed: Ed25519, c: Council, digest: Digest, sigs: seq<CouncilSignature>, i: nat) {
    forall j :: i <= j < |sigs| ==>
      && sigs[j].index < |c.members| && ed.usable(c.members[sigs[j].index])
      && ed.verifies(c.members[sigs[j].index], digest, sigs[j].signature)
  }

  lemma IncreasingStep(sigs: seq<CouncilSignature>, i: nat, prev: int)
    requires i < |sigs|
    ensures Increasing(sigs, i, prev) <==> prev < sigs[i].index && Increasing(sigs, i + 1, sigs[i].index)
  {
  }

  lemma {:induction false} FaultFree(ed: Ed25519, c: Council, digest: Digest, sigs: seq<CouncilSignature>, i: nat, prev: int)
    requires i <= |sigs|
    ensures SignatureFault(ed, c, digest, sigs, i, prev) == None
       <==> Increasing(sigs, i, prev) && AllVerify(ed, c, digest, sigs, i)
    decreases |sigs| - i
  {
    if i < |sigs| {
      FaultFree(ed, c, digest, sigs, i + 1, sigs[i].index);
      IncreasingStep(sigs, i, prev);
    }
  }

  lemma {:induction false} DistinctSeats(sigs: seq<CouncilSignature>, n: nat)
    requires n <= |sigs| && Increasing(sigs, 0, -1)
    ensures |set i | 0 <= i < n :: sigs[i].index| == n
    decreases n
  {
    if n > 0 {
      DistinctSeats(sigs, n - 1);
      var front, whole := set i | 0 <= i < n - 1 :: sigs[i].index, set i | 0 <= i < n :: sigs[i].index;
      forall x | x in front ensures x < sigs[n - 1].index {
        var i :| 0 <= i < n - 1 && sigs[i].index == x;
      }
      assert whole == front + {sigs[n - 1].index};
    }
  }

  /** A payload is accepted exactly when the threshold in force is positive and met by valid
      signatures in strictly increasing seat order; then that many *distinct* seats signed. */
  lemma CouncilQuorum(ed: Ed25519, c: Council, digest: Digest, sigs: seq<CouncilSignature>, guardian: bool)
    ensures VerifyCouncilSignatures(ed, c, digest, sigs, guardian).Ok?
       <==> && Increasing(sigs, 0, -1) && AllVerify(ed, c, digest, sigs, 0)
            && 0 < Required(c, guardian) <= Min(|sigs|, U32_MAX)
    ensures VerifyCouncilSignatures(ed, c, digest, sigs, guardian).Ok? ==>
              |SignedSeats(ed, c, digest, sigs)| >= Required(c, guardian)
  {
    FaultFree(ed, c, digest, sigs, 0, -1);
    if VerifyCouncilSignatures(ed, c, digest, sigs, guardian).Ok? {
      DistinctSeats(sigs, |sigs|);
      assert SignedSeats(ed, c, digest, sigs) == set i | 0 <= i < |sigs| :: sigs[i].index;
    }
  }
}
