/** What each instruction does to the accounts and to the council. */
module Ledger {
  import opened Digests
  import opened TrieTree
  import opened Records
  import opened Governance
  import opened Machine
  import opened Traces
  import opened Execution

  /** No two of these slots share a place in the trie. */
  ghost predicate Separates(crypto: Crypto, slots: set<Slot>) {
    forall a, b :: a in slots && b in slots && crypto.path(a) == crypto.path(b) ==> a == b
  }

  ghost predicate Touches(ins: seq<Instruction>, slots: set<Slot>) {
    forall i :: i in ins ==> SlotOf(i) in slots
  }

  /** The width of an asset identifier, which the source has in its types. */
  predicate AssetsFit(ins: seq<Instruction>) {
    forall i :: i in ins ==> (i.Debit? || i.Credit? ==> i.asset <= U32_MAX)
  }

  /** The account an address holds; a malformed slot holds nothing. */
  function AccountAt(crypto: Crypto, s: State, x: Bytes32): Account {
    match AccountIn(Get(s, crypto.path(AccountSlot(x))))
    case Ok(a) => a
    case Err(_) => EmptyAccount
  }

  function CouncilAt(crypto: Crypto, s: State): Option<Council> {
    match Get(s, crypto.path(CouncilSlot))
    case None => None
    case Some(bytes) => DecodeCouncil(bytes)
  }

  /** A step changes the one slot it names. */
  lemma OtherSlots(crypto: Crypto, s: State, i: Instruction, slot: Slot)
    requires Apply(crypto, s, i).Ok? && crypto.path(slot) != Where(crypto, i)
    ensures Get(Apply(crypto, s, i).value, crypto.path(slot)) == Get(s, crypto.path(slot))
  {
  }

  lemma OwnSlot(crypto: Crypto, s: State, i: Instruction)
    requires Apply(crypto, s, i).Ok?
    ensures Transition(crypto, i, Get(s, Where(crypto, i))).Ok?
    ensures Get(Apply(crypto, s, i).value, Where(crypto, i)) == Some(Transition(crypto, i, Get(s, Where(crypto, i))).value)
  {
  }

  // ----- on one slot

  lemma DecodedPruned(current: Option<Bytes>)
    requires AccountIn(current).Ok?
    ensures Pruned(AccountIn(current).value)
  {
    if current.Some? {
      AccountCanonical(current.value);
    }
  }

  lemma Stored(a: Account)
    requires Pruned(a)
    ensures StoreAccount(a).Ok? && AccountIn(Some(StoreAccount(a).value)) == Ok(a)
  {
    AccountRoundTrip(a);
  }

  lemma NonceStep(crypto: Crypto, x: Bytes32, n: nat, current: Option<Bytes>)
    requires Transition(crypto, ConsumeNonce(x, n), current).Ok?
    ensures AccountIn(current).Ok? && AccountIn(current).value.nonce == n
    ensures AccountIn(Some(Transition(crypto, ConsumeNonce(x, n), current).value)) == Ok(AccountIn(current).value.(nonce := n + 1))
  {
    DecodedPruned(current);
    var a := AccountIn(current).value;
    assert Transition(crypto, ConsumeNonce(x, n), current) == StoreAccount(a.(nonce := n + 1));
    Stored(a.(nonce := n + 1));
  }

  lemma DebitStep(crypto: Crypto, x: Bytes32, asset: nat, amount: nat, current: Option<Bytes>, other: nat)
    requires asset <= U32_MAX && Transition(crypto, Debit(x, asset, amount), current).Ok?
    ensures AccountIn(current).Ok?
    ensures var after := AccountIn(Some(Transition(crypto, Debit(x, asset, amount), current).value));
            && after.Ok? && after.value.nonce == AccountIn(current).value.nonce
            && Balance(after.value, other) == Balance(AccountIn(current).value, other) - (if other == asset then amount else 0)
  {
    DecodedPruned(current);
    var a := AccountIn(current).value;
    CreditDebitExact(a, asset, amount, other);
    Stored(DebitAccount(a, asset, amount).value);
  }

  lemma CreditStep(crypto: Crypto, x: Bytes32, asset: nat, amount: nat, current: Option<Bytes>, other: nat)
    requires asset <= U32_MAX && Transition(crypto, Credit(x, asset, amount), current).Ok?
    ensures AccountIn(current).Ok?
    ensures var after := AccountIn(Some(Transition(crypto, Credit(x, asset, amount), current).value));
            && after.Ok? && after.value.nonce == AccountIn(current).value.nonce
            && Balance(after.value, other) == Balance(AccountIn(current).value, other) + (if other == asset then amount else 0)
  {
    DecodedPruned(current);
    var a := AccountIn(current).value;
    CreditDebitExact(a, asset, amount, other);
    CreditPruned(a, asset, amount);
    Stored(CreditAccount(a, asset, amount).value);
  }

  lemma CouncilStep(crypto: Crypto, epoch: nat, digest: Digest, sigs: seq<CouncilSignature>, guardian: bool, current: Option<Bytes>)
    requires Transition(crypto, VerifyCouncil(epoch, digest, sigs, guardian), current).Ok?
    ensures current.Some? && DecodeCouncil(current.value).Some?
    ensures var c := DecodeCouncil(current.value).value;
            && c.epoch == epoch && VerifyCouncilSignatures(crypto.ed, c, digest, sigs, guardian).Ok?
            && DecodeCouncil(Transition(crypto, VerifyCouncil(epoch, digest, sigs, guardian), current).value) == Some(c.(epoch := epoch + 1))
  {
    CouncilCanonical(current.value);
    var c := DecodeCouncil(current.value).value;
    assert Transition(crypto, VerifyCouncil(epoch, digest, sigs, guardian), current) == Ok(EncodeCouncil(c.(epoch := epoch + 1)));
    CouncilRoundTrip(c.(epoch := epoch + 1));
  }

  // ----- on the whole state

  /** What an instruction adds to an address's holding of an asset. */
  function Delta(i: Instruction, x: Bytes32, asset: nat): int {
    match i
    case Debit(y, a, n) => if y == x && a == asset then -(n as int) else 0
    case Credit(y, a, n) => if y == x && a == asset then n else 0
    case _ => 0
  }

  predicate OnAccount(i: Instruction) {
    i.ConsumeNonce? || i.Debit? || i.Credit?
  }

  lemma StepOnOwnAccount(crypto: Crypto, s: State, i: Instruction, asset: nat)
    requires Apply(crypto, s, i).Ok? && AssetsFit([i]) && OnAccount(i)
    ensures var x := SlotOf(i).address;
            var before, after := AccountAt(crypto, s, x), AccountAt(crypto, Apply(crypto, s, i).value, x);
            && Balance(after, asset) == Balance(before, asset) + Delta(i, x, asset)
            && after.nonce == before.nonce + (if i.ConsumeNonce? then 1 else 0)
            && (i.ConsumeNonce? ==> before.nonce == i.expected)
  {
    OwnSlot(crypto, s, i);
    var current := Get(s, Where(crypto, i));
    assert i in [i];
    match i
    case ConsumeNonce(x, n) => NonceStep(crypto, x, n, current);
    case Debit(x, a, n) => DebitStep(crypto, x, a, n, current, asset);
    case Credit(x, a, n) => CreditStep(crypto, x, a, n, current, asset);
  }

  /** Every instruction's effect on every address: balances move by `Delta`, and only the nonce
      check moves a nonce. */
  lemma StepOnAccounts(crypto: Crypto, slots: set<Slot>, s: State, i: Instruction, x: Bytes32, asset: nat)
    requires Separates(crypto, slots) && SlotOf(i) in slots && AccountSlot(x) in slots
    requires Apply(crypto, s, i).Ok? && AssetsFit([i])
    ensures var before, after := AccountAt(crypto, s, x), AccountAt(crypto, Apply(crypto, s, i).value, x);
            && Balance(after, asset) == Balance(before, asset) + Delta(i, x, asset)
            && (if i.ConsumeNonce? && i.account == x then before.nonce == i.expected && after.nonce == i.expected + 1
                else after.nonce == before.nonce)
  {
    if SlotOf(i) == AccountSlot(x) {
      StepOnOwnAccount(crypto, s, i, asset);
    } else {
      OtherSlots(crypto, s, i, AccountSlot(x));
    }
  }

  /** Nothing but a council check touches the council. */
  lemma CouncilUntouched(crypto: Crypto, slots: set<Slot>, s: State, i: Instruction)
    requires Separates(crypto, slots) && SlotOf(i) in slots && CouncilSlot in slots
    requires !i.VerifyCouncil? && Apply(crypto, s, i).Ok?
    ensures CouncilAt(crypto, Apply(crypto, s, i).value) == CouncilAt(crypto, s)
  {
    OtherSlots(crypto, s, i, CouncilSlot);
  }

  /** A council check that passes moves the epoch on by one and changes nothing else. */
  lemma StepOnOwnCouncil(crypto: Crypto, s: State, epoch: nat, digest: Digest, sigs: seq<CouncilSignature>, guardian: bool)
    requires Apply(crypto, s, VerifyCouncil(epoch, digest, sigs, guardian)).Ok?
    ensures var before, after := CouncilAt(crypto, s), CouncilAt(crypto, Apply(crypto, s, VerifyCouncil(epoch, digest, sigs, guardian)).value);
            && before.Some? && before.value.epoch == epoch && after == Some(before.value.(epoch := epoch + 1))
            && VerifyCouncilSignatures(crypto.ed, before.value, digest, sigs, guardian).Ok?
  {
    OwnSlot(crypto, s, VerifyCouncil(epoch, digest, sigs, guardian));
    CouncilStep(crypto, epoch, digest, sigs, guardian, Get(s, crypto.path(CouncilSlot)));
  }
}
