/** The step machine: one instruction reads and writes one slot, on the full trie or from a
    root and a witness alone. */
module Machine {
  import opened Digests
  import Codec
  import opened TrieTree
  import opened MerkleProofs
  import opened MerkleTries
  import opened Records
  import opened Gas
  import opened Governance

  /** The regions of the state trie. */
  datatype Slot =
    | AccountSlot(address: Bytes32)
    | SocialSlot(identifier: Bytes32)
    | AssetSlot(asset: nat)
    | ParameterSlot(name: Bytes)
    | CouncilSlot
    | FeeMarketSlot
    | FeeSplitSlot
    | JwkSlot(issHash: Bytes32, jwkHash: Bytes32)

  datatype Instruction =
    | ConsumeNonce(account: Bytes32, expected: nat)
    | Debit(account: Bytes32, asset: nat, amount: nat)
    | Credit(account: Bytes32, asset: nat, amount: nat)
    | BindIdentifier(identifier: Bytes32, address: Bytes32)
    | UnbindIdentifier(identifier: Bytes32, expectedOwner: Bytes32)
    | VerifyGasAsset(asset: nat, rate: nat, intrinsicGas: nat)
    | ChargeBaseFee(timestamp: nat, baseFee: nat, gas: nat)
    | VerifyFeeSplit(split: FeeSplit)
    | WriteFeeSplit(split: FeeSplit)
    | WriteFeeMarket(floor: nat, target: nat)
    | SwitchOffGasAsset(asset: nat)
    | VerifyCouncil(epoch: nat, digest: Digest, signatures: seq<CouncilSignature>, guardian: bool)
    | WriteGasAsset(record: WhitelistedAsset)
    | WriteParameter(name: Bytes, value: nat)
    | VerifyJwk(issHash: Bytes32, jwkHash: Bytes32)
    | WriteJwk(issHash: Bytes32, jwkHash: Bytes32, active: bool)

  /** What the machine takes from cryptography: where a slot lies in the trie, and Ed25519. */
  datatype Crypto = Crypto(path: Slot -> Key, ed: Ed25519)

  datatype StepError =
    | NonceMismatch(actual: nat, expected: nat)
    | BalanceFault(balance: BalanceError)
    | MalformedSlot
    | IdentifierTaken
    | IdentifierNotHeld
    | WitnessSlotMismatch(provided: Key, slot: Key)
    | BadWitnessProof(proof: ProofError)
    | AssetNotWhitelisted
    | AssetDisabled
    | GasRateMismatch(declared: nat, onChain: nat)
    | GasFault(gas: GasError)
    | GovernanceFault(governance: GovernanceError)
    | JwkNotAccepted
    | IntrinsicGasMismatch(declaredGas: nat, onChainGas: nat)
    | BaseFeeMismatch(declaredFee: nat, actualFee: nat)
    | WindowFull
    | FeeSplitMismatch
    /** The source panics: an account cannot encode `2^32` assets. */
    | EncodingPanics

  function SlotOf(i: Instruction): Slot {
    match i
    case ConsumeNonce(account, _) => AccountSlot(account)
    case Debit(account, _, _) => AccountSlot(account)
    case Credit(account, _, _) => AccountSlot(account)
    case BindIdentifier(id, _) => SocialSlot(id)
    case UnbindIdentifier(id, _) => SocialSlot(id)
    case VerifyGasAsset(asset, _, _) => AssetSlot(asset)
    case SwitchOffGasAsset(asset) => AssetSlot(asset)
    case WriteGasAsset(record) => AssetSlot(record.asset)
    case ChargeBaseFee(_, _, _) => FeeMarketSlot
    case WriteFeeMarket(_, _) => FeeMarketSlot
    case VerifyFeeSplit(_) => FeeSplitSlot
    case WriteFeeSplit(_) => FeeSplitSlot
    case VerifyCouncil(_, _, _, _) => CouncilSlot
    case WriteParameter(name, _) => ParameterSlot(name)
    case VerifyJwk(iss, jwk) => JwkSlot(iss, jwk)
    case WriteJwk(iss, jwk, _) => JwkSlot(iss, jwk)
  }

  /** An untouched account is an empty one, not an error. */
  function AccountIn(current: Option<Bytes>): Result<Account, StepError> {
    match current
    case None => Ok(EmptyAccount)
    case Some(bytes) =>
      match DecodeAccount(bytes)
      case None => Err(MalformedSlot)
      case Some(a) => Ok(a)
  }

  function StoreAccount(a: Account): Result<Bytes, StepError> {
    if |a.balances| > U32_MAX then Err(EncodingPanics) else Ok(EncodeAccount(a))
  }

  /** An empty slot is the genesis market. */
  function MarketIn(current: Option<Bytes>): Result<FeeMarket, StepError> {
    match current
    case None => Ok(GenesisMarket(DEFAULT_BASE_FEE_FLOOR, DEFAULT_GAS_TARGET))
    case Some(bytes) =>
      match DecodeMarket(bytes)
      case None => Err(MalformedSlot)
      case Some(m) => Ok(m)
  }

  /** Charging `gas` at `timestamp` against a declared base fee. */
  function ChargeMarket(m: FeeMarket, timestamp: nat, baseFee: nat, gas: nat): Result<FeeMarket, StepError> {
    match At(m, timestamp)
    case Err(e) => Err(GasFault(e))
    case Ok(rolled) =>
      if rolled.baseFee != baseFee then Err(BaseFeeMismatch(baseFee, rolled.baseFee))
      else if rolled.windowGas + gas > WindowLimit(rolled) then Err(WindowFull)
      else Ok(rolled.(windowGas := rolled.windowGas + gas))
  }

  function SetMarket(m: FeeMarket, floor: nat, target: nat): FeeMarket {
    m.(baseFee := Max(m.baseFee, floor), floor := floor, target := target)
  }

  /** The whole semantics of the instruction set: the slot's bytes before to its bytes after. */
  function Transition(crypto: Crypto, i: Instruction, current: Option<Bytes>): Result<Bytes, StepError> {
    match i
    case ConsumeNonce(_, expected) =>
      var a :- AccountIn(current);
      if a.nonce != expected then Err(NonceMismatch(a.nonce, expected))
      else if a.nonce + 1 > U64_MAX then Err(BalanceFault(Overflow))
      else StoreAccount(a.(nonce := a.nonce + 1))
    case Debit(_, asset, amount) =>
      var a :- AccountIn(current);
      (match DebitAccount(a, asset, amount)
       case Err(e) => Err(BalanceFault(e))
       case Ok(b) => StoreAccount(b))
    case Credit(_, asset, amount) =>
      var a :- AccountIn(current);
      (match CreditAccount(a, asset, amount)
       case Err(e) => Err(BalanceFault(e))
       case Ok(b) => StoreAccount(b))
    case BindIdentifier(_, address) =>
      (match current
       case None => Ok(EncodeBinding(Bound(address)))
       case Some(bytes) =>
         match DecodeBinding(bytes)
         case None => Err(MalformedSlot)
         case Some(b) =>
           if b.Bound? && b.address != address then Err(IdentifierTaken) else Ok(EncodeBinding(Bound(address))))
    case UnbindIdentifier(_, owner) =>
      (match current
       case None => Err(IdentifierNotHeld)
       case Some(bytes) =>
         match DecodeBinding(bytes)
         case None => Err(MalformedSlot)
         case Some(b) => if b == Bound(owner) then Ok(EncodeBinding(Vacant)) else Err(IdentifierNotHeld))
    case VerifyGasAsset(_, rate, gas) =>
      (match current
       case None => Err(AssetNotWhitelisted)
       case Some(bytes) =>
         match DecodeAsset(bytes)
         case None => Err(MalformedSlot)
         case Some(r) =>
           if !r.enabled then Err(AssetDisabled)
           else if r.rate != rate then Err(GasRateMismatch(rate, r.rate))
           else if r.intrinsicGas != gas then Err(IntrinsicGasMismatch(gas, r.intrinsicGas))
           else Ok(bytes))
    case ChargeBaseFee(timestamp, baseFee, gas) =>
      var m :- MarketIn(current);
      var charged :- ChargeMarket(m, timestamp, baseFee, gas);
      Ok(EncodeMarket(charged))
    case VerifyFeeSplit(split) =>
      if current == Some(EncodeSplit(split)) then Ok(EncodeSplit(split)) else Err(FeeSplitMismatch)
    case VerifyCouncil(epoch, digest, sigs, guardian) =>
      (match current
       case None => Err(GovernanceFault(MalformedCouncil))
       case Some(bytes) =>
         match DecodeCouncil(bytes)
         case None => Err(GovernanceFault(MalformedCouncil))
         case Some(c) =>
           if c.epoch != epoch then Err(GovernanceFault(WrongEpoch(c.epoch, epoch)))
           else match VerifyCouncilSignatures(crypto.ed, c, digest, sigs, guardian)
             case Err(e) => Err(GovernanceFault(e))
             case Ok(_) =>
               if c.epoch + 1 > U64_MAX then Err(BalanceFault(Overflow))
               else Ok(EncodeCouncil(c.(epoch := c.epoch + 1))))
    case WriteGasAsset(record) =>
      var _ :- Permitted(SetGasAsset(record));
      Ok(EncodeAsset(record))
    case WriteParameter(name, value) =>
      var _ :- Permitted(SetParameter(name, value));
      Ok(Codec.BE(value, 16))
    case WriteFeeMarket(floor, target) =>
      var _ :- Permitted(SetFeeMarket(floor, target));
      var m :- MarketIn(current);
      Ok(EncodeMarket(SetMarket(m, floor, target)))
    case WriteFeeSplit(split) =>
      var _ :- Permitted(SetFeeSplit(split));
      Ok(EncodeSplit(split))
    case SwitchOffGasAsset(_) =>
      (match current
       case None => Err(AssetNotWhitelisted)
       case Some(bytes) =>
         match DecodeAsset(bytes)
         case None => Err(MalformedSlot)
         case Some(r) => Ok(EncodeAsset(r.(enabled := false))))
    case VerifyJwk(_, _) =>
      (match current
       case None => Err(JwkNotAccepted)
       case Some(bytes) =>
         match DecodeJwk(bytes)
         case None => Err(MalformedSlot)
         case Some(active) => if active then Ok(bytes) else Err(JwkNotAccepted))
    case WriteJwk(_, _, active) => Ok(EncodeJwk(active))
  }

  function Permitted(u: GovernanceUpdate): Result<(), StepError> {
    match CheckPermitted(u)
    case Ok(_) => Ok(())
    case Err(e) => Err(GovernanceFault(e))
  }

  /** The machine's observable state between two steps. */
  datatype MachineState = MachineState(stateRoot: Digest, pc: nat)

  function Commitment(m: MachineState): Digest {
    MachineCommitment(m.stateRoot, m.pc)
  }

  function Get(s: State, k: Key): Option<Bytes> {
    if k in s.values then Some(s.values[k]) else None
  }

  function Where(crypto: Crypto, i: Instruction): Key {
    crypto.path(SlotOf(i))
  }

  /** One instruction on the full trie. */
  function Apply(crypto: Crypto, s: State, i: Instruction): Result<State, StepError> {
    var updated :- Transition(crypto, i, Get(s, Where(crypto, i)));
    Ok(TrieTree.Insert(s, Where(crypto, i), updated))
  }

  datatype StepWitness = StepWitness(slot: Key, value: Option<Bytes>, proof: MerkleProof)

  /** Whether a witness names the right slot and its contents prove against the root. */
  function CheckWitness(root: Digest, slot: Key, w: StepWitness): Result<(), StepError> {
    if w.slot != slot then Err(WitnessSlotMismatch(w.slot, slot))
    else
      var checked := match w.value
        case Some(bytes) => VerifyInclusion(w.proof, root, w.slot, bytes)
        case None => VerifyNonInclusion(w.proof, root, w.slot);
      match checked
      case Err(e) => Err(BadWitnessProof(e))
      case Ok(_) => Ok(())
  }

  /** One instruction from a root and a witness alone, as L1 runs it. */
  function VerifyStep(crypto: Crypto, pre: MachineState, i: Instruction, w: StepWitness): Result<MachineState, StepError> {
    var _ :- CheckWitness(pre.stateRoot, Where(crypto, i), w);
    var updated :- Transition(crypto, i, w.value);
    match ComputeUpdatedRoot(w.proof, w.slot, Value(updated))
    case Err(e) => Err(BadWitnessProof(e))
    case Ok(root) => Ok(MachineState(root, SaturatingAdd(pre.pc, 1)))
  }

  /** The witness an honest party reads off its own trie. */
  function HonestWitness(s: State, slot: Key): StepWitness {
    StepWitness(slot, Get(s, slot), ProofOf(s.root, 0, slot))
  }

  predicate WitnessFault(e: StepError) {
    e.WitnessSlotMismatch? || e.BadWitnessProof?
  }

  /** `apply`, on the trie itself; a refused step leaves it untouched. */
  method ApplyTo(crypto: Crypto, trie: MerkleTrie, i: Instruction) returns (r: Result<Digest, StepError>)
    requires trie.Valid()
    modifies trie
    ensures trie.Valid() && old(trie.history) <= trie.history
    ensures match Apply(crypto, old(trie.Now()), i)
            case Ok(s) => r == Ok(s.root) && trie.Now() == s
            case Err(e) => r == Err(e) && trie.Now() == old(trie.Now())
  {
    var slot := Where(crypto, i);
    var updated :- Transition(crypto, i, if slot in trie.values then Some(trie.values[slot]) else None);
    var root := trie.Insert(slot, updated);
    return Ok(root);
  }

  // ----- the two executions agree

  lemma ApplyCommits(crypto: Crypto, s: State, i: Instruction)
    requires Commits(s) && Apply(crypto, s, i).Ok?
    ensures Commits(Apply(crypto, s, i).value)
  {
    InsertCommits(s, Where(crypto, i), Transition(crypto, i, Get(s, Where(crypto, i))).value);
  }

  /** An accepted witness reports exactly what the trie holds: nobody can misreport a slot. */
  lemma WitnessIsTrue(s: State, slot: Key, w: StepWitness)
    requires Commits(s) && CheckWitness(s.root, slot, w).Ok?
    ensures w.slot == slot && w.value == Get(s, slot)
    ensures ReconstructRoot(w.proof, slot) == Ok(s.root)
  {
    assert Lookup(s.root, 0, slot) == HashAt(s.values, slot);
    ProofsAreSound(w.proof, s.root, slot, if w.value.Some? then Value(w.value.value) else Zero);
  }

  /** The honest witness is always accepted. */
  lemma HonestWitnessAccepted(s: State, slot: Key)
    requires Commits(s)
    ensures CheckWitness(s.root, slot, HonestWitness(s, slot)).Ok?
  {
    assert Lookup(s.root, 0, slot) == HashAt(s.values, slot);
    ProofsAreComplete(s.root, slot, if slot in s.values then Value(s.values[slot]) else Zero);
  }

  lemma TransitionBlamesNoWitness(crypto: Crypto, i: Instruction, current: Option<Bytes>)
    requires Transition(crypto, i, current).Err?
    ensures !WitnessFault(Transition(crypto, i, current).error)
  {
  }

  /** The stateless step refines the stateful one. Against the root of any committed trie, every
      witness is either refused as defective, or `verify_step` does exactly what `apply` does:
      same success, same error, same root, program counter advanced by one. */
  lemma StatelessRefinesStateful(crypto: Crypto, s: State, pc: nat, i: Instruction, w: StepWitness)
    requires Commits(s)
    ensures var slot := Where(crypto, i);
            var result := VerifyStep(crypto, MachineState(s.root, pc), i, w);
            if CheckWitness(s.root, slot, w).Err? then
              result.Err? && WitnessFault(result.error)
            else match Apply(crypto, s, i)
              case Ok(t) => result == Ok(MachineState(t.root, SaturatingAdd(pc, 1)))
              case Err(e) => result == Err(e) && !WitnessFault(e)
  {
    var slot := Where(crypto, i);
    if CheckWitness(s.root, slot, w).Ok? {
      WitnessIsTrue(s, slot, w);
      var t := Transition(crypto, i, w.value);
      if t.Ok? {
        UpdateIsInsert(w.proof, s.root, slot, Value(t.value));
      } else {
        TransitionBlamesNoWitness(crypto, i, w.value);
      }
    }
  }
}
