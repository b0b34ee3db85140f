/** Names, fee assets, keys and the fee split: what keeps holding, over whole executions, until the
    one instruction that may change it. */
module Registers {
  import opened Digests
  import opened TrieTree
  import opened Records
  import opened Gas
  import opened Governance
  import opened Wire
  import opened Machine
  import opened Traces
  import opened Execution
  import opened Ledger
  import opened Replays

  /** If every step that succeeds where something holds keeps it and is acceptable, then over any
      execution it is kept and every instruction was acceptable. */
  lemma {:induction false} ReplayGuards(step: Step, holds: State -> bool, ok: Instruction -> bool, s: State, ins: seq<Instruction>)
    requires forall t: State, i: Instruction :: i in ins && holds(t) && step(t, i).Ok? ==> holds(step(t, i).value) && ok(i)
    requires holds(s) && Replay(step, s, ins).Ok?
    ensures holds(Replay(step, s, ins).value) && forall i :: i in ins ==> ok(i)
    decreases |ins|
  {
    if ins != [] {
      var front, last := ins[..|ins| - 1], ins[|ins| - 1];
      ReplayGuards(step, holds, ok, s, front);
      assert forall i :: i in ins ==> i in front || i == last;
    }
  }

  ghost predicate InPlay(crypto: Crypto, slots: set<Slot>, ins: seq<Instruction>, slot: Slot) {
    Separates(crypto, slots) && Touches(ins, slots) && slot in slots
  }

  function At(crypto: Crypto, s: State, slot: Slot): Option<Bytes> {
    Get(s, crypto.path(slot))
  }

  // ----- names

  predicate Holder(crypto: Crypto, s: State, id: Bytes32, owner: Bytes32) {
    At(crypto, s, SocialSlot(id)).Some? && DecodeBinding(At(crypto, s, SocialSlot(id)).value) == Some(Bound(owner))
  }

  lemma BindStep(crypto: Crypto, id: Bytes32, address: Bytes32, owner: Bytes32, bytes: Bytes)
    requires DecodeBinding(bytes) == Some(Bound(owner)) && Transition(crypto, BindIdentifier(id, address), Some(bytes)).Ok?
    ensures address == owner
    ensures DecodeBinding(Transition(crypto, BindIdentifier(id, address), Some(bytes)).value) == Some(Bound(owner))
  {
    BindingRoundTrip(Bound(owner));
  }

  lemma UnbindStep(crypto: Crypto, id: Bytes32, claimant: Bytes32, owner: Bytes32, bytes: Bytes)
    requires DecodeBinding(bytes) == Some(Bound(owner)) && Transition(crypto, UnbindIdentifier(id, claimant), Some(bytes)).Ok?
    ensures claimant == owner
  {
  }

  /** A step on a held name leaves it with its holder, unless it is the holder's own release. */
  lemma NameStep(crypto: Crypto, slots: set<Slot>, s: State, i: Instruction, id: Bytes32, owner: Bytes32)
    requires Separates(crypto, slots) && SlotOf(i) in slots && SocialSlot(id) in slots
    requires Holder(crypto, s, id, owner) && Apply(crypto, s, i).Ok? && i != UnbindIdentifier(id, owner)
    ensures Holder(crypto, Apply(crypto, s, i).value, id, owner)
  {
    if SlotOf(i) == SocialSlot(id) {
      OwnSlot(crypto, s, i);
      var bytes := At(crypto, s, SocialSlot(id)).value;
      if i.BindIdentifier? {
        BindStep(crypto, id, i.address, owner, bytes);
      } else {
        UnbindStep(crypto, id, i.expectedOwner, owner, bytes);
      }
    } else {
      OtherSlots(crypto, s, i, SocialSlot(id));
    }
  }

  /** A name stays with its holder through every execution in which the holder does not release it. */
  lemma NameStays(crypto: Crypto, slots: set<Slot>, s: State, ins: seq<Instruction>, id: Bytes32, owner: Bytes32)
    requires InPlay(crypto, slots, ins, SocialSlot(id)) && Holder(crypto, s, id, owner)
    requires UnbindIdentifier(id, owner) !in ins && Replay(StepOf(crypto), s, ins).Ok?
    ensures Holder(crypto, Replay(StepOf(crypto), s, ins).value, id, owner)
  {
    var holds := (t: State) => Holder(crypto, t, id, owner);
    var step := StepOf(crypto);
    forall t: State, i: Instruction | i in ins && holds(t) && step(t, i).Ok? ensures holds(step(t, i).value) {
      NameStep(crypto, slots, t, i, id, owner);
    }
    ReplayGuards(step, holds, _ => true, s, ins);
  }

  lemma PayloadReleases(p: Payload, sender: Bytes32, id: Bytes32, owner: Bytes32)
    requires CompilePayload(p, sender).Ok? && UnbindIdentifier(id, owner) in CompilePayload(p, sender).value
    ensures sender == owner && p == UnbindName(id)
  {
    if p.DistributeFees? {
      ShareCreditsAreCredits(p.asset, SharesOf(p.split.beneficiaries, p.amount).value);
    }
  }

  /** Only the holder's own transaction releases a name. */
  lemma OnlyHolderReleases(rules: Rules, t: Transaction, ctx: BatchContext, id: Bytes32, owner: Bytes32)
    requires Compile(rules, t, ctx).Ok? && UnbindIdentifier(id, owner) in Compile(rules, t, ctx).value
    ensures t.sender == owner && t.payload == UnbindName(id)
  {
    var charge, payload := ChargeAndPayload(t, ctx).value.0, ChargeAndPayload(t, ctx).value.1;
    NoReleaseAround(t, ctx, charge);
    InTheMiddle(Prologue(t, ctx, charge), payload, Epilogue(t, ctx, charge), UnbindIdentifier(id, owner));
    PayloadReleases(t.payload, t.sender, id, owner);
  }

  lemma NoReleaseAround(t: Transaction, ctx: BatchContext, charge: FeeCharge)
    ensures forall i :: i in Prologue(t, ctx, charge) || i in Epilogue(t, ctx, charge) ==> !i.UnbindIdentifier?
  {
  }

  lemma InTheMiddle<T>(a: seq<T>, b: seq<T>, c: seq<T>, x: T)
    requires x in a + b + c && x !in a && x !in c
    ensures x in b
  {
  }

  lemma {:induction false} ReleasedBy(rules: Rules, s: State, bs: seq<Batch>, id: Bytes32, owner: Bytes32) returns (t: Transaction)
    requires RunBatches(rules, s, bs).Some? && UnbindIdentifier(id, owner) in RunBatches(rules, s, bs).value.1
    ensures t in AllTxs(bs) && t.sender == owner && t.payload == UnbindName(id)
    decreases |bs|
  {
    var front, last := bs[..|bs| - 1], bs[|bs| - 1];
    if UnbindIdentifier(id, owner) in RunBatches(rules, s, front).value.1 {
      t := ReleasedBy(rules, s, front, id, owner);
    } else {
      var compile := CompilerOf(rules, last.ctx);
      BatchIsHonest(compile, StepOf(rules.crypto), RunBatches(rules, s, front).value.0, last.txs);
      t := ProgramFrom(compile, last.txs, UnbindIdentifier(id, owner));
      OnlyHolderReleases(rules, t, last.ctx, id, owner);
    }
  }

  /** A name cannot be taken: over any run of batches it stays with its holder unless the holder
      sends a transaction that releases it. */
  lemma NameCannotBeTaken(rules: Rules, s: State, bs: seq<Batch>, slots: set<Slot>, id: Bytes32, owner: Bytes32)
    requires RunBatches(rules, s, bs).Some? && Holder(rules.crypto, s, id, owner)
    requires InPlay(rules.crypto, slots, RunBatches(rules, s, bs).value.1, SocialSlot(id))
    requires forall t :: t in AllTxs(bs) ==> t.sender != owner || t.payload != UnbindName(id)
    ensures Holder(rules.crypto, RunBatches(rules, s, bs).value.0, id, owner)
  {
    EpochTaken(rules);
    RunIsReplay(rules, s, bs, EpochTakes(), EpochOf());
    var ins := RunBatches(rules, s, bs).value.1;
    if UnbindIdentifier(id, owner) in ins {
      var t := ReleasedBy(rules, s, bs, id, owner);
    } else {
      NameStays(rules.crypto, slots, s, ins, id, owner);
    }
  }

  // ----- fee assets

  /** The asset's record is stored and switched off. */
  ghost predicate SwitchedOff(crypto: Crypto, s: State, asset: nat) {
    var bytes := At(crypto, s, AssetSlot(asset));
    bytes.Some? && DecodeAsset(bytes.value).Some? && !DecodeAsset(bytes.value).value.enabled && AssetFits(DecodeAsset(bytes.value).value)
  }

  predicate RewritesAsset(i: Instruction, asset: nat) {
    i.WriteGasAsset? && i.record.asset == asset
  }

  lemma SwitchOffWrites(crypto: Crypto, asset: nat, bytes: Bytes, record: WhitelistedAsset)
    requires DecodeAsset(bytes) == Some(record)
    ensures Transition(crypto, SwitchOffGasAsset(asset), Some(bytes)) == Ok(EncodeAsset(record.(enabled := false)))
  {
  }

  lemma OffFeesRefused(crypto: Crypto, asset: nat, rate: nat, gas: nat, bytes: Bytes, record: WhitelistedAsset)
    requires DecodeAsset(bytes) == Some(record) && !record.enabled
    ensures Transition(crypto, VerifyGasAsset(asset, rate, gas), Some(bytes)).Err?
  {
  }

  /** On the asset's own slot: switching off again changes nothing, and a fee check fails. */
  lemma OffOwnStep(crypto: Crypto, s: State, i: Instruction, asset: nat)
    requires SlotOf(i) == AssetSlot(asset) && SwitchedOff(crypto, s, asset) && Apply(crypto, s, i).Ok? && !RewritesAsset(i, asset)
    ensures SwitchedOff(crypto, Apply(crypto, s, i).value, asset) && i == SwitchOffGasAsset(asset)
  {
    OwnSlot(crypto, s, i);
    var bytes := At(crypto, s, AssetSlot(asset)).value;
    var record := DecodeAsset(bytes).value;
    match i
    case SwitchOffGasAsset(_) =>
      SwitchOffWrites(crypto, asset, bytes, record);
      AssetRoundTrip(record.(enabled := false));
    case VerifyGasAsset(_, rate, gas) => OffFeesRefused(crypto, asset, rate, gas, bytes, record);
    case _ =>
  }

  lemma OffStep(crypto: Crypto, slots: set<Slot>, s: State, i: Instruction, asset: nat)
    requires Separates(crypto, slots) && SlotOf(i) in slots && AssetSlot(asset) in slots
    requires SwitchedOff(crypto, s, asset) && Apply(crypto, s, i).Ok? && !RewritesAsset(i, asset)
    ensures SwitchedOff(crypto, Apply(crypto, s, i).value, asset)
    ensures !(i.VerifyGasAsset? && i.asset == asset)
  {
    if SlotOf(i) == AssetSlot(asset) {
      OffOwnStep(crypto, s, i, asset);
    } else {
      OtherSlots(crypto, s, i, AssetSlot(asset));
    }
  }

  /** A fee asset switched off pays no fee, in any execution, until its record is written again. */
  lemma OffStaysOff(crypto: Crypto, slots: set<Slot>, s: State, ins: seq<Instruction>, asset: nat)
    requires InPlay(crypto, slots, ins, AssetSlot(asset)) && SwitchedOff(crypto, s, asset)
    requires (forall i :: i in ins ==> !RewritesAsset(i, asset)) && Replay(StepOf(crypto), s, ins).Ok?
    ensures SwitchedOff(crypto, Replay(StepOf(crypto), s, ins).value, asset)
    ensures forall i :: i in ins ==> !(i.VerifyGasAsset? && i.asset == asset)
  {
    ghost var holds := (t: State) => SwitchedOff(crypto, t, asset);
    var ok := (i: Instruction) => !(i.VerifyGasAsset? && i.asset == asset);
    var step := StepOf(crypto);
    forall t: State, i: Instruction | i in ins && holds(t) && step(t, i).Ok? ensures holds(step(t, i).value) && ok(i) {
      OffStep(crypto, slots, t, i, asset);
    }
    ReplayGuards(step, holds, ok, s, ins);
  }

  // ----- keyless keys

  predicate Revoked(crypto: Crypto, s: State, iss: Bytes32, jwk: Bytes32) {
    At(crypto, s, JwkSlot(iss, jwk)) != Some(EncodeJwk(true))
  }

  lemma RevokedStep(crypto: Crypto, slots: set<Slot>, s: State, i: Instruction, iss: Bytes32, jwk: Bytes32)
    requires Separates(crypto, slots) && SlotOf(i) in slots && JwkSlot(iss, jwk) in slots
    requires Revoked(crypto, s, iss, jwk) && Apply(crypto, s, i).Ok? && i != WriteJwk(iss, jwk, true)
    ensures Revoked(crypto, Apply(crypto, s, i).value, iss, jwk) && i != VerifyJwk(iss, jwk)
  {
    if SlotOf(i) == JwkSlot(iss, jwk) {
      OwnSlot(crypto, s, i);
    } else {
      OtherSlots(crypto, s, i, JwkSlot(iss, jwk));
    }
  }

  /** A key never accepted, or revoked, authorises nothing until the council accepts it. */
  lemma RevokedStaysRevoked(crypto: Crypto, slots: set<Slot>, s: State, ins: seq<Instruction>, iss: Bytes32, jwk: Bytes32)
    requires InPlay(crypto, slots, ins, JwkSlot(iss, jwk)) && Revoked(crypto, s, iss, jwk)
    requires WriteJwk(iss, jwk, true) !in ins && Replay(StepOf(crypto), s, ins).Ok?
    ensures Revoked(crypto, Replay(StepOf(crypto), s, ins).value, iss, jwk) && VerifyJwk(iss, jwk) !in ins
  {
    var holds := (t: State) => Revoked(crypto, t, iss, jwk);
    var ok := (i: Instruction) => i != VerifyJwk(iss, jwk);
    var step := StepOf(crypto);
    forall t: State, i: Instruction | i in ins && holds(t) && step(t, i).Ok? ensures holds(step(t, i).value) && ok(i) {
      RevokedStep(crypto, slots, t, i, iss, jwk);
    }
    ReplayGuards(step, holds, ok, s, ins);
  }

  // ----- the fee split

  lemma SplitStep(crypto: Crypto, slots: set<Slot>, s: State, i: Instruction, bytes: Bytes)
    requires Separates(crypto, slots) && SlotOf(i) in slots && FeeSplitSlot in slots
    requires At(crypto, s, FeeSplitSlot) == Some(bytes) && Apply(crypto, s, i).Ok? && !i.WriteFeeSplit?
    ensures At(crypto, Apply(crypto, s, i).value, FeeSplitSlot) == Some(bytes)
    ensures i.VerifyFeeSplit? ==> EncodeSplit(i.split) == bytes
  {
    if i.VerifyFeeSplit? {
      OwnSlot(crypto, s, i);
    } else {
      OtherSlots(crypto, s, i, FeeSplitSlot);
    }
  }

  /** Until the council sets another, every distribution pays by the stored fee split and no other. */
  lemma DistributionsUseStoredSplit(crypto: Crypto, slots: set<Slot>, s: State, ins: seq<Instruction>, split: FeeSplit)
    requires InPlay(crypto, slots, ins, FeeSplitSlot) && SplitFits(split)
    requires At(crypto, s, FeeSplitSlot) == Some(EncodeSplit(split)) && Replay(StepOf(crypto), s, ins).Ok?
    requires forall i :: i in ins ==> !i.WriteFeeSplit? && (i.VerifyFeeSplit? ==> SplitFits(i.split))
    ensures forall i :: i in ins && i.VerifyFeeSplit? ==> i.split == split
  {
    var bytes := EncodeSplit(split);
    var holds := (t: State) => At(crypto, t, FeeSplitSlot) == Some(bytes);
    var ok := (i: Instruction) => i.VerifyFeeSplit? ==> EncodeSplit(i.split) == bytes;
    var step := StepOf(crypto);
    forall t: State, i: Instruction | i in ins && holds(t) && step(t, i).Ok? ensures holds(step(t, i).value) && ok(i) {
      SplitStep(crypto, slots, t, i, bytes);
    }
    ReplayGuards(step, holds, ok, s, ins);
    forall i | i in ins && i.VerifyFeeSplit? ensures i.split == split {
      assert ok(i);
      SplitRoundTrip(i.split);
      SplitRoundTrip(split);
    }
  }
}
