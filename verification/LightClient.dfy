/** Client-side verification of an account against a trusted state root. */
module LightClients {
  import opened Digests
  import opened TrieTree
  import opened MerkleProofs
  import opened Records
  import opened Machine

  datatype TrustLevel = FinalizedRoot | SoftConfirmed

  datatype AccountProofPayload = AccountProofPayload(
    address: Bytes32, height: nat, stateRoot: Digest, nonce: nat, balances: seq<(nat, nat)>, proof: MerkleProof)

  datatype VerifiedAccount = VerifiedAccount(
    address: Bytes32, height: nat, account: Account, trust: TrustLevel, stateRoot: Digest)

  datatype LightClientError =
    | UntrustedRoot(root: Digest)
    | BadProof(proof: ProofError)
    | DuplicateAsset(asset: nat)
    | ZeroBalance(asset: nat)

  /** The widths of a payload's numbers, which the source has in its types. */
  ghost predicate Typed(p: AccountProofPayload) {
    && p.nonce <= U64_MAX && |p.balances| <= U32_MAX
    && forall i :: 0 <= i < |p.balances| ==> p.balances[i].0 <= U32_MAX && p.balances[i].1 <= U128_MAX
  }

  /** The balances a list spells out, if it repeats no asset and lists no zero. */
  function BalancesOf(entries: seq<(nat, nat)>): Result<map<nat, nat>, LightClientError>
    decreases |entries|
  {
    if entries == [] then Ok(map[])
    else
      var front :- BalancesOf(entries[..|entries| - 1]);
      var (asset, amount) := entries[|entries| - 1];
      if amount == 0 then Err(ZeroBalance(asset))
      else if asset in front then Err(DuplicateAsset(asset))
      else Ok(front[asset := amount])
  }

  lemma {:induction false} BadListStaysBad(entries: seq<(nat, nat)>, n: nat)
    requires n <= |entries| && BalancesOf(entries[..n]).Err?
    ensures BalancesOf(entries) == BalancesOf(entries[..n])
    decreases |entries|
  {
    if n == |entries| {
      assert entries[..n] == entries;
    } else {
      assert entries[..|entries| - 1][..n] == entries[..n];
      BadListStaysBad(entries[..|entries| - 1], n);
    }
  }

  /** The Merkle check for a claimed account: an empty one must be absent, any other stored exactly. */
  function CheckAccount(root: Digest, slot: Key, a: Account, proof: MerkleProof): Result<(), ProofError> {
    if a == EmptyAccount then VerifyNonInclusion(proof, root, slot)
    else VerifyInclusion(proof, root, slot, EncodeAccount(a))
  }

  function TrustOf(finalized: Digest, soft: Option<Digest>, root: Digest): Option<TrustLevel> {
    if root == finalized then Some(FinalizedRoot) else if soft == Some(root) then Some(SoftConfirmed) else None
  }

  function Verify(crypto: Crypto, finalized: Digest, soft: Option<Digest>, p: AccountProofPayload)
    : Result<VerifiedAccount, LightClientError>
  {
    match TrustOf(finalized, soft, p.stateRoot)
    case None => Err(UntrustedRoot(p.stateRoot))
    case Some(trust) =>
      var balances :- BalancesOf(p.balances);
      match CheckAccount(p.stateRoot, crypto.path(AccountSlot(p.address)), Account(p.nonce, balances), p.proof)
      case Err(e) => Err(BadProof(e))
      case Ok(_) => Ok(VerifiedAccount(p.address, p.height, Account(p.nonce, balances), trust, p.stateRoot))
  }

  class LightClient {
    var finalizedRoot: Digest
    var softRoot: Option<Digest>
    const crypto: Crypto

    constructor (crypto: Crypto, root: Digest)
      ensures finalizedRoot == root && softRoot == None && this.crypto == crypto
    {
      this.crypto := crypto;
      finalizedRoot, softRoot := root, None;
    }

    method SetFinalizedRoot(root: Digest)
      modifies this`finalizedRoot
      ensures finalizedRoot == root
    {
      finalizedRoot := root;
    }

    method SetSoftRoot(root: Option<Digest>)
      modifies this`softRoot
      ensures softRoot == root
    {
      softRoot := root;
    }

    method VerifyAccountProof(p: AccountProofPayload) returns (r: Result<VerifiedAccount, LightClientError>)
      ensures r == Verify(crypto, finalizedRoot, softRoot, p)
    {
      var trust := TrustOf(finalizedRoot, softRoot, p.stateRoot);
      if trust.None? {
        return Err(UntrustedRoot(p.stateRoot));
      }
      var balances: map<nat, nat> := map[];
      for i := 0 to |p.balances|
        invariant BalancesOf(p.balances[..i]) == Ok(balances)
      {
        var (asset, amount) := p.balances[i];
        assert p.balances[..i + 1][..i] == p.balances[..i];
        if amount == 0 {
          BadListStaysBad(p.balances, i + 1);
          return Err(ZeroBalance(asset));
        }
        if asset in balances {
          BadListStaysBad(p.balances, i + 1);
          return Err(DuplicateAsset(asset));
        }
        balances := balances[asset := amount];
      }
      assert p.balances[..|p.balances|] == p.balances;
      var slot := crypto.path(AccountSlot(p.address));
      var account := Account(p.nonce, balances);
      var checked: Result<(), ProofError>;
      if p.nonce == 0 && balances == map[] {
        checked := VerifyNonInclusion(p.proof, p.stateRoot, slot);
      } else {
        checked := VerifyInclusion(p.proof, p.stateRoot, slot, EncodeAccount(account));
      }
      if checked.Err? {
        return Err(BadProof(checked.error));
      }
      return Ok(VerifiedAccount(p.address, p.height, account, trust.value, p.stateRoot));
    }
  }

  // ----- soundness

  lemma {:induction false} ListedPruned(entries: seq<(nat, nat)>)
    requires BalancesOf(entries).Ok?
    requires forall i :: 0 <= i < |entries| ==> entries[i].0 <= U32_MAX && entries[i].1 <= U128_MAX
    ensures var m := BalancesOf(entries).value;
            |m| == |entries| && forall k :: k in m ==> k <= U32_MAX && 0 < m[k] <= U128_MAX
    decreases |entries|
  {
    if entries != [] {
      ListedPruned(entries[..|entries| - 1]);
    }
  }

  /** A Merkle check that succeeds says what the trie holds. */
  lemma CheckedIsCommitted(s: State, slot: Key, a: Account, proof: MerkleProof)
    requires Commits(s) && Pruned(a) && CheckAccount(s.root, slot, a, proof).Ok?
    ensures AccountIn(Get(s, slot)) == Ok(a)
    ensures Get(s, slot) == if a == EmptyAccount then None else Some(EncodeAccount(a))
  {
    var value := if a == EmptyAccount then None else Some(EncodeAccount(a));
    WitnessIsTrue(s, slot, StepWitness(slot, value, proof));
    AccountRoundTrip(a);
  }

  /** An account the light client accepts is exactly the one committed: whichever committed state
      has the trusted root, that state holds this account at this address. */
  lemma AcceptedIsCommitted(crypto: Crypto, finalized: Digest, soft: Option<Digest>, p: AccountProofPayload, s: State)
    requires Verify(crypto, finalized, soft, p).Ok? && Typed(p) && Commits(s) && s.root == p.stateRoot
    ensures var v := Verify(crypto, finalized, soft, p).value;
            && AccountIn(Get(s, crypto.path(AccountSlot(p.address)))) == Ok(v.account)
            && (v.trust.FinalizedRoot? ==> s.root == finalized) && (v.trust.SoftConfirmed? ==> soft == Some(s.root))
  {
    ListedPruned(p.balances);
    CheckedIsCommitted(s, crypto.path(AccountSlot(p.address)), Account(p.nonce, BalancesOf(p.balances).value), p.proof);
  }

  // ----- completeness

  /** A payload that tells the truth about a state. */
  ghost predicate Truthful(crypto: Crypto, s: State, p: AccountProofPayload) {
    var slot := crypto.path(AccountSlot(p.address));
    && p.stateRoot == s.root && p.proof == ProofOf(s.root, 0, slot)
    && BalancesOf(p.balances).Ok?
    && AccountIn(Get(s, slot)) == Ok(Account(p.nonce, BalancesOf(p.balances).value))
  }

  /** The exact condition for the truth to be accepted: the slot is absent, or holds an account that
      is not empty. A stored account that is empty, one spent to nothing that never sent, is refused. */
  lemma TruthAcceptedIff(crypto: Crypto, finalized: Digest, soft: Option<Digest>, p: AccountProofPayload, s: State)
    requires Commits(s) && Truthful(crypto, s, p) && TrustOf(finalized, soft, s.root).Some?
    ensures var stored := Get(s, crypto.path(AccountSlot(p.address)));
            Verify(crypto, finalized, soft, p).Ok? <==> stored.None? || Account(p.nonce, BalancesOf(p.balances).value) != EmptyAccount
  {
    var slot := crypto.path(AccountSlot(p.address));
    var a := Account(p.nonce, BalancesOf(p.balances).value);
    var stored := Get(s, slot);
    HonestWitnessAccepted(s, slot);
    if stored.Some? {
      AccountCanonical(stored.value);
      if a == EmptyAccount && CheckAccount(s.root, slot, a, p.proof).Ok? {
        CheckedIsCommitted(s, slot, a, p.proof);
      }
    }
  }

  /** Such an account is reachable: credit an address nothing was ever sent from and debit it all
      again, and the truth about it is refused. */
  lemma SpentAccountRefused(crypto: Crypto, x: Bytes32, asset: nat, amount: nat, height: nat)
    requires asset <= U32_MAX && 0 < amount <= U128_MAX
    ensures var ins := [Credit(x, asset, amount), Debit(x, asset, amount)];
            var funded := Apply(crypto, EmptyState, ins[0]);
            && funded.Ok? && Apply(crypto, funded.value, ins[1]).Ok?
            && var s := Apply(crypto, funded.value, ins[1]).value;
               var p := AccountProofPayload(x, height, s.root, 0, [], ProofOf(s.root, 0, crypto.path(AccountSlot(x))));
               Truthful(crypto, s, p) && Verify(crypto, s.root, None, p).Err?
  {
    var slot := crypto.path(AccountSlot(x));
    FundedThenSpent(crypto, x, asset, amount);
    var rich := EncodeAccount(Account(0, map[asset := amount]));
    var s1 := TrieTree.Insert(EmptyState, slot, rich);
    var s2 := TrieTree.Insert(s1, slot, EncodeAccount(EmptyAccount));
    InsertCommits(EmptyState, slot, rich);
    InsertCommits(s1, slot, EncodeAccount(EmptyAccount));
    AccountRoundTrip(EmptyAccount);
    var p := AccountProofPayload(x, height, s2.root, 0, [], ProofOf(s2.root, 0, slot));
    TruthAcceptedIff(crypto, s2.root, None, p, s2);
  }

  lemma FundedThenSpent(crypto: Crypto, x: Bytes32, asset: nat, amount: nat)
    requires asset <= U32_MAX && 0 < amount <= U128_MAX
    ensures var rich := EncodeAccount(Account(0, map[asset := amount]));
            && Transition(crypto, Credit(x, asset, amount), None) == Ok(rich)
            && Transition(crypto, Debit(x, asset, amount), Some(rich)) == Ok(EncodeAccount(EmptyAccount))
  {
    var rich := Account(0, map[asset := amount]);
    AccountRoundTrip(rich);
    assert rich.balances - {asset} == map[];
  }
}
