# A Dafny model of SENA's fraud-proof stack

SENA is an optimistic rollup. A sequencer executes batches of transactions over a sparse Merkle
trie, posts a bonded assertion of the result on L1, and anyone who disagrees narrows the
disagreement by bisection to one step that L1 executes itself. The security argument is a chain of
claims spread over several crates; this project models each link in Dafny and proves the chain.

## How the model is built

- **Digests** (`Digests`) are a datatype with one constructor per hashing domain, so equal digests
  have equal preimages. `Framing` proves the byte-level fact this stands on: framed encodings are
  injective. `Unhashed` stands for any digest that is the hash of nothing in the model, so that
  adversarial inputs are covered. Trie keys are 256-bit paths, and a root digest is the tree it
  commits to.
- **State**. `TrieTree` is the trie on values; `MerkleTries.MerkleTrie` is the mutable node store,
  proved equal to it after every operation, with the ghost set of all states it ever had.
- **Execution**. `Machine` is one instruction on the full trie and from a witness alone; `Traces`
  runs lists of them for any step function and any compiler; `Execution`, `Compiling`, `Ledger`,
  `Supplies`, `Replays`, `Registers` and `FeeMarkets` are the real machine and what whole batches and
  runs keep.
- **Disputes**. `Bisection` is the game, `BisectionRuns` what every run keeps, `HonestPlay` one
  honest party against any opponent with clocks running, `Disputes` the trace player, L1's ruling
  and who wins.
- **Settlement and production**. `Assertions`, `BatchTrees`, `Mempools`, `Sequencers`, `Admissions`
  (admission against sealing), `Verifiers` (the node that follows blocks), `LightClients`.
- **Bytes**. `Codec`, `Records`, `Wire` give each format on values; `Buffers` is the same formats on
  the mutable writer and reader.

Where the source updates in place (the trie, disputes, the assertion chain, the mempool, buffers,
accounts, the sequencer, the verifier, the light client) the model is a class whose methods are proved equal to a
function of the old state, and the properties are proved of that function. Slot hashing, Ed25519 and
transaction authentication are parameters; the clock is an argument. Where a result depends on slots
not colliding, that is a hypothesis about the finite set of slots in play (`Ledger.Separates`).
Widths the source has in its types (`u32`, `u64`, `u128`) are explicit bounds.

## Where a claim of the source needed a condition

- *An honest party cannot lose* (`bisection.rs`, `verifier.rs`). The trace player has no proof to
  submit for a step past its own trace, although `state_at`'s documentation expects the opponent to
  lose there. It wins every promptly played dispute about a false final claim **if and only if** the
  claimed length is within its own trace (`Disputes.AlwaysWinsIffLengthWithinTrace`): an opponent
  that echoes its commitments leads it to the last step and it forfeits. This is about the Rust
  player alone. Of the assertions `check_assertion` rejects, the game can be opened on all but
  honest claims cut short (`Disputes.DisputableIff`).
- *A batch that cannot execute is grounds for a challenge* (`verifier_node.rs`). At its first failing
  step every sound proof is ruled for the challenger and one exists
  (`Verifiers.UnexecutableBlockRefuted`), but `follow` keeps no trace of such a batch: the player stays
  whatever it was (`Verifiers.Verifier.Follow`), so the dispute opened is none, or one that starts
  where an earlier batch did (`Verifiers.OpensAtItsOwnStart`).
- *The two clocks use half the window.* They do, but a dispute can stay open for three quarters of
  it, which is the bound that holds (`BisectionRuns.DisputeFitsWindow`, `HalfWindowIsNotEnough`).
- A dispute on an empty trace never narrows (`BisectionRuns.EmptyTraceNeverNarrows`).
- *Finalized is final.* `post` overwrites a record with the same id, so a final assertion stays
  final **if and only if** it is not posted again (`Assertions.FinalStaysIff`); genesis cannot be.
- `challenger_won` is documented to return the most recent first; the list puts parents before
  children, so it is most recent first **if and only if** the disputed assertion has no child that
  falls with it (`Assertions.MostRecentFirstIff`, `CascadeListsParentFirst`).
- `take_batch_within` is documented to take at least one transaction if any is queued; it takes one
  **if and only if** one is queued and the limit is above zero (`Mempools.Mempool.TakeWithin`).
- *A prefix of the queue still executes* (`mempool.rs`), *any other failure is an admission bug*
  (`sequencer.rs`). Admission is in an earlier context than sealing. A cut prefix becomes a block whole
  **if and only if** the pool, admitting it again in the block's own context, would keep all of it, and
  sealing fails **if and only if** the pool would drop a transaction that compiles
  (`Admissions.CutPrefixSealsIff`). Leaving out a transaction that stopped compiling is enough to make
  it fail when its sender has a later one in the batch (`Admissions.DroppedNonceBreaks`).
- The light client refuses the truth about an account that is stored but empty
  (`LightClients.TruthAcceptedIff`), which an address credited and debited again becomes
  (`LightClients.SpentAccountRefused`).
- `prove_at` is documented to produce a proof that verifies against nothing for a hash that was never
  a root. For a stored interior node the proof, which is walked from the top of the key, folds to that
  hash **if and only if** the walk down the node's own tree reads the same bits as the key from its
  start (`MerkleTries.MerkleTrie.ProveAt`, `MerkleProofs.WalkedProofsExact`): not for every key under
  the node, and for some it shows a stored key as absent (`MerkleTries.InteriorNodeVerifies`).
- Block cutting avoids base-fee failures, in a batch that gets as far as its first charge, **if and only
  if** the market can be rolled to the block's timestamp (`Sequencers.FeeFaultIff`); otherwise no
  ordinary non-empty batch executes at all (`Sequencers.RollIsNecessary`). From the first block on the
  sequencer's timestamps are never behind the market's window, so only overflow of the base fee is left
  (`Sequencers.Sequencer.FeesInHand`, `Produce`); a first block over a state whose window is later than
  the clock does fail (`Sequencers.LaterWindowFaults`).
- Encoding an account with 2^32 assets panics in the source; the model returns `EncodingPanics`.

## Model

| member | source | states |
|---|---|---|
| TrieTree.InsertSpec | crates/sena-state/src/trie.rs:180-275 | Inserting keeps the collapsed form and changes what is found at exactly one key, leaf splitting included |
| TrieTree.RemoveSpec | crates/sena-state/src/trie.rs:277-318 | Removing keeps the collapsed form, empties exactly one key, and collapses lone leaves upwards |
| TrieTree.CanonUnique | crates/sena-state/src/trie.rs:180-318 | Two collapsed tries that agree on every key are the same trie |
| TrieTree.RootDeterminesContents | crates/sena-state/src/trie.rs:92-107 | Two committed states with the same root hold the same map, and conversely |
| TrieTree.HistoryIndependence | crates/sena-state/src/trie.rs:92-107 | Any two runs of inserts and removes that end in the same map end in the same root |
| TrieTree.RunCommits | crates/sena-state/src/trie.rs:92-107 | After any run of writes the root commits to exactly the map those writes leave |
| MerkleTries.SnapshotRoundTrip | crates/sena-state/src/trie.rs:365-403 | Re-inserting a trie's bindings in any order rebuilds the same root and contents |
| MerkleTries.MerkleTrie.Insert | crates/sena-state/src/trie.rs:92-98 | The node store after an insert is the value-level trie after it, and every earlier root is still stored |
| MerkleTries.MerkleTrie.Remove | crates/sena-state/src/trie.rs:101-107 | The same for a removal, of a present or an absent key |
| MerkleTries.MerkleTrie.InsertAt | crates/sena-state/src/trie.rs:180-220 | The recursive descent stores and returns the value-level insertion, keeping all stored nodes |
| MerkleTries.MerkleTrie.SplitAt | crates/sena-state/src/trie.rs:223-275 | The chain of internal nodes separating two keys is the one insertion needs |
| MerkleTries.MerkleTrie.RemoveAt | crates/sena-state/src/trie.rs:277-308 | The recursive removal stores and returns the value-level removal |
| MerkleTries.MerkleTrie.LoneChild | crates/sena-state/src/trie.rs:311-318 | A leaf is pulled up exactly when its sibling is empty |
| MerkleTries.MerkleTrie.Prove | crates/sena-state/src/trie.rs:114-116 | A proof taken now reconstructs the current root and verifies the key's presence or absence |
| MerkleTries.MerkleTrie.ProveAt | crates/sena-state/src/trie.rs:134-172 | A proof for any root the trie ever had verifies that state's contents; for any hash at all, which keys it folds for and what it then verifies, exactly |
| MerkleTries.InteriorNodeVerifies | crates/sena-state/src/trie.rs:118-172 | A stored interior node that was never a root, and a stored key its proof shows as absent |
| MerkleTries.MerkleTrie.ToSnapshot | crates/sena-state/src/trie.rs:365-378 | The entries written list each binding once and rebuild the current state |
| MerkleTries.MerkleTrie.FromSnapshot | crates/sena-state/src/trie.rs:382-403 | Loading succeeds exactly when the entries rebuild to the stated root, and then gives that state |
| MerkleProofs.ProofsAreSound | crates/sena-state/src/proof.rs:139-187 | No proof, however made, verifies an inclusion or absence the root does not commit to |
| MerkleProofs.ProofsAreComplete | crates/sena-state/src/trie.rs:134-172 | The walked proof verifies the key's presence or absence |
| MerkleProofs.WalkedProofsExact | crates/sena-state/src/trie.rs:134-172 | From any tree a walked proof folds back exactly when the walk stays on the key's own path, and then verifies what the walk found |
| MerkleProofs.ProofsAreExact | crates/sena-state/src/proof.rs:281-294 | Some proof verifies a claim about a key exactly when the trie makes that claim |
| MerkleProofs.UpdateIsInsert | crates/sena-state/src/proof.rs:218-269 | The root computed from a proof alone is the root of the trie after the insertion, splitting included |
| MerkleProofs.SplitHashIsSplit | crates/sena-state/src/proof.rs:302-354 | The stateless split hash is the hash of the stateful split |
| MerkleProofs.RunReconstructRoot | crates/sena-state/src/proof.rs:86-131 | The loop computes the value-level reconstruction and its errors |
| MerkleProofs.RunComputeUpdatedRoot | crates/sena-state/src/proof.rs:218-269 | The loop computes the value-level updated root and its errors |
| Framing.FramedInjective | crates/sena-primitives/src/encoding.rs:60-103 | Equal framed encodings have equal domains and equal field lists |
| Framing.CanonicalEncoder.Field | crates/sena-primitives/src/encoding.rs:73-77 | The builder's buffer is the framing of the fields pushed so far |
| Codec.ReadPutInt | crates/sena-primitives/src/codec.rs:64-86 | A written integer reads back, leaving the rest |
| Codec.PutReadInt | crates/sena-primitives/src/codec.rs:154-209 | Bytes an integer was read from are the bytes it is written as |
| Codec.PutReadBytes | crates/sena-primitives/src/codec.rs:262-276 | Bytes a length-prefixed field was read from are its one encoding |
| Codec.Writer.LengthPrefixed | crates/sena-primitives/src/codec.rs:116-121 | Appends the length and the bytes |
| Codec.Reader.Take | crates/sena-primitives/src/codec.rs:297-309 | Advances past exactly the bytes taken, or fails in place |
| Codec.Reader.LengthPrefixed | crates/sena-primitives/src/codec.rs:262-276 | Reads what the format says, refusing an overlong length |
| Codec.Reader.Finish | crates/sena-primitives/src/codec.rs:288-295 | Succeeds exactly when no input is left |
| Records.CreditDebitExact | crates/sena-stf/src/account.rs:50-82 | A credit or debit moves one balance by the amount and no other, fails exactly on overflow or shortfall, and each undoes the other |
| Records.AccountRoundTrip | crates/sena-stf/src/account.rs:97-141 | Every pruned account survives encoding |
| Records.AccountCanonical | crates/sena-stf/src/account.rs:117-141 | Accepted bytes decode to a pruned account and are its one encoding |
| Records.MarketRoundTrip | crates/sena-stf/src/gas.rs:249-279 | Every fee market of the source's widths survives encoding |
| Records.AssetRoundTrip | crates/sena-stf/src/gas.rs:136-167 | Every whitelisted asset survives encoding |
| Records.SplitRoundTrip | crates/sena-stf/src/gas.rs:373-407 | Every fee split within the beneficiary limit survives encoding |
| Records.SplitCanonical | crates/sena-stf/src/gas.rs:388-407 | Accepted bytes of a fee split are its one encoding |
| Records.CouncilRoundTrip | crates/sena-stf/src/governance.rs:90-129 | Every council survives encoding |
| Records.BindingRoundTrip | crates/sena-stf/src/social.rs:43-77 | Every social binding survives encoding |
| Records.AccountCell.Credit | crates/sena-stf/src/account.rs:50-61 | The balance map after a credit, unchanged if refused |
| Records.AccountCell.Debit | crates/sena-stf/src/account.rs:65-82 | The balance map after a debit, spent to zero is removed, unchanged if refused |
| Wire.WireRoundTrip | crates/sena-stf/src/wire.rs:283-362 | Every transaction within the limits survives encode then decode |
| Wire.WireExact | crates/sena-stf/src/wire.rs:319-362 | Decoding yields a transaction exactly when it is within the limits and the bytes are its encoding |
| Buffers.Encode | crates/sena-stf/src/wire.rs:283-316 | Writing through the buffer produces the format's bytes |
| Buffers.Decode | crates/sena-stf/src/wire.rs:319-362 | Reading through the buffer accepts, refuses and reports as the format says |
| Buffers.ReadSignaturesFrom | crates/sena-stf/src/wire.rs:231-281 | The signature loop reads the list the format says or fails with its error |
| Buffers.WriteSignatures | crates/sena-stf/src/wire.rs:182-229 | The signature loop writes the list in order |
| Buffers.ReadUpdateFrom | crates/sena-stf/src/wire.rs:146-180 | Reads a governance update by its tag, refusing non-canonical records |
| Buffers.WriteAccount | crates/sena-stf/src/account.rs:97-114 | The loop writes balances in increasing order of asset |
| Buffers.ReadStoredAccount | crates/sena-stf/src/account.rs:117-141 | The loop refuses order, zero, truncation and trailing bytes, and otherwise decodes |
| Gas.SettleExact | crates/sena-stf/src/gas.rs:506-558 | Refund, tip and base make exactly the hold, rounding is at most two units, and the net cost is at most the gas used at a price within the offer, rounded up |
| Gas.Settle | crates/sena-stf/src/gas.rs:506-558 | The subtraction never underflows and the parts add up |
| Gas.StepBound | crates/sena-stf/src/gas.rs:290-308 | EIP-1559's step bound: up by at most an eighth or one, down by at most an eighth, never below the floor |
| Gas.NextBaseFeeMonotone | crates/sena-stf/src/gas.rs:290-308 | More gas never means a lower next base fee |
| Gas.CheckSplit | crates/sena-stf/src/gas.rs:330-350 | The running total accepts exactly few, distinct, paid beneficiaries making the whole |
| Gas.DistributionBurn | crates/sena-stf/src/gas.rs:354-365 | Shares never exceed the amount; what is burned is the burn share plus, in all, less than one unit for each beneficiary |
| Governance.CouncilQuorum | crates/sena-stf/src/governance.rs:283-327 | Signatures are accepted exactly when the threshold is met in increasing seat order, and then that many distinct seats signed |
| Governance.RunVerifyCouncilSignatures | crates/sena-stf/src/governance.rs:283-327 | The loop accepts and reports as the value-level check |
| Machine.ApplyTo | crates/sena-stf/src/execute.rs:385-389 | One instruction on the trie, which a refusal leaves untouched |
| Machine.WitnessIsTrue | crates/sena-stf/src/execute.rs:419-457 | An accepted witness reports exactly what the trie holds |
| Machine.HonestWitnessAccepted | crates/sena-fraudproof/src/verifier.rs:160-179 | The witness read off a trie is always accepted |
| Machine.StatelessRefinesStateful | crates/sena-stf/src/execute.rs:385-457 | Against any committed trie, a witness is refused as defective or `verify_step` has the same success, error and root as `apply` |
| Compiling.CompileTransaction | crates/sena-stf/src/execute.rs:557-626 | Pushing instructions in the source's order yields the value-level compilation and its errors |
| Compiling.PushPayload | crates/sena-stf/src/execute.rs:672-788 | The payload's instructions, with the distribution loop skipping zero shares |
| Traces.BatchIsHonest | crates/sena-stf/src/execute.rs:920-954 | A successful batch's trace records the root after every step, of exactly the program its transactions compile to, with each start where the trace says |
| Traces.FailurePropagates | crates/sena-stf/src/execute.rs:920-954 | A batch with a failing prefix fails as the prefix does |
| Traces.TransactionInProgram | crates/sena-stf/src/execute.rs:815-830 | A transaction's own instructions sit in the program at its start |
| Execution.ExecuteBatchOn | crates/sena-stf/src/execute.rs:920-954 | The loop over the trie yields the value-level state and trace, or its error |
| Execution.ExecuteStepsOn | crates/sena-stf/src/execute.rs:920-954 | The inner loop over one transaction's instructions |
| Ledger.StepOnAccounts | crates/sena-stf/src/execute.rs:150-219 | Every instruction's effect on every account: balances move by its delta, and only a nonce check moves a nonce |
| Ledger.StepOnOwnCouncil | crates/sena-stf/src/execute.rs:283-323 | A passed council check had the right epoch and signatures and moves only the epoch |
| Supplies.SupplyConserved | crates/sena-stf/src/execute.rs:920-954 | Over a whole batch each asset's total over all accounts falls by exactly what its fee distributions burn, which is never negative |
| Supplies.CompiledNet | crates/sena-stf/src/execute.rs:557-626 | A compiled transaction's credits and debits cancel, but for its burn |
| Supplies.ReplayMovesNet | crates/sena-stf/src/execute.rs:385-389 | Any execution moves a total by the net of its instructions |
| Replays.NoncesInOrder | crates/sena-stf/src/execute.rs:152-165 | Over any run of batches an account's nonces are consecutive, one per transaction it sends |
| Replays.NoReplay | crates/sena-stf/src/execute.rs:152-165 | No two transactions of a run share a sender and nonce |
| Replays.EpochsInOrder | crates/sena-stf/src/execute.rs:288-305 | Over any run governance payloads carry consecutive epochs |
| Replays.EpochOnce | crates/sena-stf/src/execute.rs:288-305 | No council epoch admits two payloads |
| Replays.GovernanceQuorate | crates/sena-stf/src/governance.rs:283-327 | Every executed payload was signed over its own update and epoch by enough distinct seats of the council |
| Replays.CompiledNonce | crates/sena-stf/src/execute.rs:580-586 | A compiled transaction checks exactly one nonce, its own |
| FeeMarkets.FloorAlways | crates/sena-stf/src/execute.rs:251-269 | The base fee stays at or above its floor through every execution |
| FeeMarkets.CutBlocksNeverOverrun | crates/sena-stf/src/execute.rs:251-269 | A batch whose gas fits the window, in the window's context, never fails a base-fee charge |
| FeeMarkets.BatchSetsWindow | crates/sena-stf/src/execute.rs:251-269 | A non-empty batch leaves the market in the window of the batch's own timestamp |
| FeeMarkets.CompiledCharge | crates/sena-stf/src/execute.rs:596-600 | A compiled transaction charges its required gas, once |
| Registers.NameCannotBeTaken | crates/sena-stf/src/execute.rs:150-219 | Over any run a bound identifier stays with its holder unless the holder sends a transaction releasing it |
| Registers.OnlyHolderReleases | crates/sena-stf/src/execute.rs:699-704 | An unbinding instruction compiles only from the holder's own unbind transaction |
| Registers.OffStaysOff | crates/sena-stf/src/execute.rs:222-250 | A fee asset switched off pays no fee in any execution until its record is written again |
| Registers.RevokedStaysRevoked | crates/sena-stf/src/execute.rs:211-218 | A key not accepted authorises nothing until the council accepts it |
| Registers.DistributionsUseStoredSplit | crates/sena-stf/src/execute.rs:270-276 | Until another is set, every executed distribution pays by the stored fee split |
| Bisection.ComputeBoundaries | crates/sena-fraudproof/src/bisection.rs:220-224 | Integer arithmetic computes the boundaries the proofs use |
| Bisection.BoundariesIncrease | crates/sena-fraudproof/src/bisection.rs:220-224 | Boundaries run strictly from lo to hi and no segment exceeds the span over the arity, rounded up |
| Bisection.Dispute.constructor | crates/sena-fraudproof/src/bisection.rs:233-256 | An opened dispute's whole state |
| Bisection.Dispute.DissectMove | crates/sena-fraudproof/src/bisection.rs:299-322 | The whole state after a dissection, refused or not, the clock charged first |
| Bisection.Dispute.SelectMove | crates/sena-fraudproof/src/bisection.rs:325-354 | The whole state after a selection, refused or not |
| Bisection.Dispute.TimeoutMove | crates/sena-fraudproof/src/bisection.rs:368-378 | Past the deadline whoever must move forfeits |
| Bisection.Dispute.Begin | crates/sena-fraudproof/src/bisection.rs:381-421 | Turn, deadline and clock checks, and what they charge |
| BisectionRuns.PlaySound | crates/sena-fraudproof/src/bisection.rs:299-436 | Every move by anyone keeps the width bound, the clock bound and whose turn it is |
| BisectionRuns.ConvergesInLogRounds | crates/sena-fraudproof/src/bisection.rs:299-354 | With 8^r at least the trace length, no run has more than r rounds and after r it is at one step or over |
| BisectionRuns.DisputeFitsWindow | crates/sena-fraudproof/src/bisection.rs:368-427 | In every run the deadline is within three quarters of the window, after which a timeout ends the dispute |
| BisectionRuns.HalfWindowIsNotEnough | crates/sena-fraudproof/src/bisection.rs:190-208 | A run still open past half the window |
| BisectionRuns.EmptyTraceNeverNarrows | crates/sena-fraudproof/src/bisection.rs:429-436 | On an empty trace no run ever reaches one step |
| BisectionRuns.BoundariesFitU64 | crates/sena-fraudproof/src/bisection.rs:220-224 | The products formed fit a u64 whenever the trace length is at most its maximum over eight |
| HonestPlay.DisagreementFound | crates/sena-fraudproof/src/verifier.rs:138-146 | A player that disputes the end always finds a segment, agreeing at its start and not at its end |
| HonestPlay.FirstMismatch | crates/sena-fraudproof/src/verifier.rs:138-146 | The index found is the first whose claimed end differs, or there is none |
| HonestPlay.ChallengerRunHolds | crates/sena-fraudproof/src/verifier.rs:188-207 | Against any defender every event keeps agreement at lo, disagreement at hi and time in hand, or the challenger has won |
| HonestPlay.DefenderRunHolds | crates/sena-fraudproof/src/verifier.rs:122-128 | Against any challenger every event keeps both ends the defender's own states, or the defender has won |
| Disputes.BuildProof | crates/sena-fraudproof/src/verifier.rs:160-179 | The replay loop builds the proof for the disputed step, or none outside the trace |
| Disputes.TakeTurn | crates/sena-fraudproof/src/verifier.rs:188-207 | The player makes its role's move and passes the answer on; with no move to make, at one step in particular, it says why and the dispute is unchanged |
| Disputes.TurnsAgree | crates/sena-fraudproof/src/verifier.rs:188-207 | The moves the winning theorems are about are the ones this player makes |
| Disputes.AdjudicationIsExact | crates/sena-fraudproof/src/osp.rs:94-148 | L1 rules for the defender exactly when the proof is defective or the claimed post-state is the honest one |
| Disputes.HonestChallengerWins | crates/sena-fraudproof/src/bisection.rs:17-20 | A prompt honest challenger of a false claim within its trace wins every dispute, whatever the defender does |
| Disputes.HonestDefenderWins | crates/sena-fraudproof/src/bisection.rs:17-20 | A prompt honest defender wins every dispute, whatever is selected and whatever proofs are submitted |
| Disputes.AlwaysWinsIffLengthWithinTrace | crates/sena-fraudproof/src/verifier.rs:100-113 | The player always wins exactly when the claimed length is within its trace |
| Disputes.PromptRunExists | crates/sena-fraudproof/src/verifier.rs:188-207 | Every opening with a disputed end has a prompt run that reaches the late clock |
| Disputes.WinsLastStepIff | crates/sena-fraudproof/src/verifier.rs:160-163 | It wins every last step reached in good standing exactly under the same condition |
| Disputes.OverstatedLengthLoses | crates/sena-fraudproof/src/verifier.rs:160-163 | A longer claim has a prompt run that the player loses |
| Disputes.AgreesIff | crates/sena-fraudproof/src/verifier.rs:57-73 | A verifier agrees exactly with the assertion claiming its own final state at its own length |
| Disputes.DisputableIff | crates/sena-node/src/verifier_node.rs:129-158 | A rejected assertion can be disputed exactly when it is not an honest claim cut short |
| Assertions.AssertionChain.constructor | crates/sena-fraudproof/src/assertion.rs:179-207 | A new chain holds a final genesis and a window no shorter than the floor |
| Assertions.AssertionChain.PostAssertion | crates/sena-fraudproof/src/assertion.rs:260-292 | The whole state after a post and each way it is refused |
| Assertions.AssertionChain.Challenge | crates/sena-fraudproof/src/assertion.rs:299-312 | The whole state after a challenge opens |
| Assertions.AssertionChain.DefenderWins | crates/sena-fraudproof/src/assertion.rs:322-337 | Pending again only when no challenge is left |
| Assertions.AssertionChain.ChallengerWins | crates/sena-fraudproof/src/assertion.rs:347-373 | The worklist terminates and rejects exactly the assertion and its descendants, listing each newly fallen one once, parents first |
| Assertions.CascadeListsParentFirst | crates/sena-fraudproof/src/assertion.rs:341-373 | A chain of two claims, the lower one lost: it is listed first, against the documented order |
| Assertions.MostRecentFirstIff | crates/sena-fraudproof/src/assertion.rs:341-373 | The list is most recent first exactly when no child of the disputed assertion falls |
| Assertions.AssertionChain.FinalizeAssertion | crates/sena-fraudproof/src/assertion.rs:385-415 | The whole state after finalization and each way it is refused |
| Assertions.AssertionChain.IsWithdrawable | crates/sena-fraudproof/src/assertion.rs:420-424 | True exactly when a final assertion claims the root |
| Assertions.AssertionChain.TakeSnapshot | crates/sena-fraudproof/src/assertion.rs:445-453 | The snapshot lists exactly the chain's records |
| Assertions.RunKeeps | crates/sena-fraudproof/src/assertion.rs:260-415 | In every run, repeated posts included: challenged exactly when challenges are open, roots continue, children of the rejected are rejected, the window is safe |
| Assertions.RunSafe | crates/sena-fraudproof/src/assertion.rs:260-415 | In every run that reposts nothing final: a final claim stands on a final one and has aged a window |
| Assertions.AncestorsFinalized | crates/sena-fraudproof/src/assertion.rs:385-404 | Every ancestor of a final claim is final, each continuing its parent's root |
| Assertions.FinalStaysIff | crates/sena-fraudproof/src/assertion.rs:281-290 | A final record survives a step exactly when it is not posted again |
| Assertions.FinalForever | crates/sena-fraudproof/src/assertion.rs:260-415 | Once final, final and unchanged for the rest of the run |
| Assertions.WithdrawableForever | crates/sena-fraudproof/src/assertion.rs:420-424 | A withdrawable root stays withdrawable |
| Assertions.CascadeSparesFinal | crates/sena-fraudproof/src/assertion.rs:347-373 | No final assertion is among those a lost challenge takes down |
| Assertions.RestoreIsIdentity | crates/sena-fraudproof/src/assertion.rs:445-474 | Restoring a snapshot gives the chain back, in whatever order records were written |
| BatchTrees.Build | crates/sena-stf/src/batch.rs:114-137 | The levels pair-hash up from the padded leaves to one root, for every batch size |
| BatchTrees.Prove | crates/sena-stf/src/batch.rs:155-166 | Every leaf's path recomputes the root; past the end there is none |
| BatchTrees.ComputeRootFor | crates/sena-stf/src/batch.rs:84-96 | The loop computes the root a path implies |
| BatchTrees.RootBindsLeaf | crates/sena-stf/src/batch.rs:32-47 | A path of any length and position that takes a leaf to the root is possible only for the entry really there |
| BatchTrees.RootBindsBatch | crates/sena-stf/src/batch.rs:114-137 | Two batches with one root are one batch |
| BatchTrees.LeafYieldsInstruction | crates/sena-stf/src/batch.rs:1-20 | From one proven leaf L1 recovers the very instructions the trace has |
| BatchTrees.WireLeafYieldsInstruction | crates/sena-stf/src/batch.rs:1-20 | The same of the wire format, for every batch within its limits |
| Mempools.Mempool.Submit | crates/sena-node/src/mempool.rs:116-157 | What is admitted executes after everything kept; duplicates of hash or sender and nonce are refused, each as what it is; every index stays exact |
| Mempools.Mempool.TipOver | crates/sena-node/src/mempool.rs:162-184 | Rebuilding keeps in order exactly what still executes |
| Mempools.Mempool.Reindex | crates/sena-node/src/mempool.rs:187-193 | The indexes are those of the queue |
| Mempools.Mempool.TakeFitting | crates/sena-node/src/mempool.rs:208-234 | Takes the longest prefix within gas budget and caps, then within the byte limit |
| Mempools.Mempool.TakeWithin | crates/sena-node/src/mempool.rs:241-264 | Takes the longest prefix within limit and bytes, a first transaction whatever its size, and something exactly when something is queued and the limit is above zero |
| Sequencers.ProducedBlocksNeverOverrun | crates/sena-node/src/sequencer.rs:407-456 | A batch cut to the budget, stamped no earlier than the market's window, fails no base-fee charge short of overflow, even after uncompilable transactions are dropped |
| Sequencers.FeeFaultIff | crates/sena-node/src/sequencer.rs:407-456 | For a cut batch that reaches its first charge, sealing fails on a charge exactly when the timestamp is behind the window or the next base fee overflows |
| Sequencers.LaterWindowFaults | crates/sena-node/src/sequencer.rs:249-258 | For every market and earlier timestamp, a state holding that market on which every charge fails |
| Sequencers.RollIsNecessary | crates/sena-node/src/sequencer.rs:249-258 | An ordinary non-empty batch executes only if the market rolls to its timestamp |
| Sequencers.SealDropsUncompilable | crates/sena-node/src/sequencer.rs:442-456 | Sealing is executing the batch without exactly what does not compile: the same block or the same failed step, and no block only when nothing is left |
| Sequencers.SealOn | crates/sena-node/src/sequencer.rs:442-456 | The retry loop on copies computes the value-level sealing |
| Sequencers.CommitmentBinds | crates/sena-node/src/sequencer.rs:82-91 | One header commitment commits to one context, batch and list of starts |
| Sequencers.WireCommitmentBinds | crates/sena-node/src/sequencer.rs:82-91 | The same of the wire format, for every two batches within its limits |
| Sequencers.Sequencer.FeesInHand | crates/sena-node/src/sequencer.rs:407-456 | In every state the sequencer reaches, what it cuts fails no base-fee charge short of overflow; of the first block the clock must not be behind the market |
| Sequencers.Sequencer.Produce | crates/sena-node/src/sequencer.rs:407-484 | What is taken leaves the queue; state and head change only with a block, whose execution is the new state; with the market ready, no failure is over a fee; L1 never refuses the assertion as unconnected |
| Sequencers.Sequencer.Adopt | crates/sena-node/src/sequencer.rs:457-484 | The assertion posted connects the old root to the new one and commits to the block |
| Admissions.PrefixExecutesIff | crates/sena-node/src/mempool.rs:236-241 | A batch cut to its window executes exactly when the pool admits its transactions one at a time there, and the two ends differ in the fee market alone |
| Admissions.CutPrefixSealsIff | crates/sena-node/src/sequencer.rs:434-456 | A cut batch fails to seal exactly when re-admission would drop one that compiles, and seals whole exactly when it would drop none |
| Admissions.DroppedNonceBreaks | crates/sena-node/src/sequencer.rs:437-450 | Dropping a transaction fails the batch if its sender has a later one in it that compiles |
| Admissions.NextAdmitted | crates/sena-node/src/mempool.rs:280-297 | On a tip that differs in the fee market alone, the next transaction is admitted exactly when it executes in the batch |
| Verifiers.Verifier.Follow | crates/sena-node/src/verifier_node.rs:87-116 | The replica moves exactly on agreement; the player is the block's own execution, or unchanged if the block does not execute |
| Verifiers.Verifier.OpenDispute | crates/sena-node/src/verifier_node.rs:129-158 | The dispute opened is from the player in hand, and there is none without one |
| Verifiers.AcceptsIff | crates/sena-node/src/verifier_node.rs:87-116 | An assertion is accepted exactly when the block executes to the root and length it claims |
| Verifiers.OpensAtItsOwnStart | crates/sena-node/src/verifier_node.rs:129-158 | A dispute opens at a state exactly when the player's own trace started there |
| Verifiers.BatchFailsAt | crates/sena-stf/src/execute.rs:920-954 | The step a failed batch names is the first of its published program that fails |
| Verifiers.UnexecutableBlockRefuted | crates/sena-fraudproof/src/osp.rs:94-148 | At the first failing step of a block that does not execute, exactly the sound proofs are ruled for the challenger, whatever end is claimed, and one exists |
| LightClients.AcceptedIsCommitted | crates/sena-light-client/src/lib.rs:159-204 | An accepted account is exactly the one the trusted root commits to |
| LightClients.TruthAcceptedIff | crates/sena-light-client/src/lib.rs:159-204 | A truthful payload is accepted exactly when the slot is absent or the account is not empty |
| LightClients.SpentAccountRefused | crates/sena-light-client/src/lib.rs:184-187 | A reachable state about which the truth is refused |
| LightClients.LightClient.VerifyAccountProof | crates/sena-light-client/src/lib.rs:159-204 | The loop and checks accept, refuse and report as the value-level verification |

## Left out

- SHA-256, Ed25519, Groth16, Poseidon and keyless verification: library cryptography, taken as parameters.
- MerkleTries.SnapshotRoundTrip: a snapshot is its root and its entries in some order; its bytes are not modelled.
- MerkleTries.MerkleTrie.ToSnapshot: the entries and their root, not the bytes they are written as.
- MerkleTries.MerkleTrie.FromSnapshot: starts from entries already read, so malformed or truncated bytes are not modelled.
- The order in which map-ordered loops (snapshots, the cascade's children) visit entries: any order is allowed.
- The byte encoding of instructions: nothing proved here reads it.
- `resolve_by_one_step` called outside `OneStep`: the source has no guard; runs apply a ruling only at one step.
- Mempools.Mempool.Submit: admission is a parameter of the pool (`Mempools.Admit` is the node's) and the tip's trie is a value, so sharing of nodes between its copies is not modelled.
- Sequencers.Sequencer.Produce: the permille cap product is not bounded to 64 bits.
- Records.AssetRoundTrip: one direction only; text that is not UTF-8 decodes lossily, so stored bytes need not re-encode identically, and the wire format compares re-encoded bytes instead.
- `Sequencer::resume`, `confirmation`, wallets, RPC, storage, the relayer, the watcher and the L1 contracts.
- Social-binding verification by the light client, which repeats the account case.
- `fill_fees` and fee estimation, which only propose field values.
