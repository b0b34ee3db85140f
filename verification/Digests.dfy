/** Bytes, machine-integer bounds and the symbolic digests every other module commits with. */
module Digests {

  datatype Option<+T> = None | Some(value: T)

  /** The source's `Result`; `:-` propagates the error as `?` does there. */
  datatype Result<+T, +E> = Ok(value: T) | Err(error: E) {
    predicate IsFailure() {
      Err?
    }
    function PropagateFailure<U>(): Result<U, E>
      requires Err?
    {
      Err(error)
    }
    function Extract(): T
      requires Ok?
    {
      value
    }
  }

  type Byte = b: int | 0 <= b < 256
  type Bytes = seq<Byte>

  const U32_MAX: nat := 0xFFFF_FFFF
  const U64_MAX: nat := 0xFFFF_FFFF_FFFF_FFFF
  const U128_MAX: nat := 0xFFFF_FFFF_FFFF_FFFF_FFFF_FFFF_FFFF_FFFF

  /** `u64::saturating_add`. */
  function SaturatingAdd(a: nat, b: nat): nat {
    if a + b > U64_MAX then U64_MAX else a + b
  }

  function Min(a: int, b: int): int {
    if a <= b then a else b
  }

  function Max(a: int, b: int): int {
    if a >= b then a else b
  }

  /** The trie is descended one key bit per level, most significant bit first. */
  const KEY_BITS: nat := 256

  type Key = k: seq<bool> | |k| == KEY_BITS witness seq(KEY_BITS, _ => false)

  /** A 32-byte digest, as the term that was hashed.

      Each constructor stands for one domain-separated framed tuple, so two digests are equal
      exactly when the same tuple was hashed in the same domain: the collision-freedom the
      protocol relies on, without claiming that SHA-256 is injective on byte strings.
      `Framing.FramedInjective` proves that the tuples themselves have distinct preimages.
      `Unhashed` is any 32-byte string that is not the digest of such a tuple, which a party is
      free to publish. */
  datatype Digest =
    | Zero
    | TrieInternal(left: Digest, right: Digest)
    | TrieLeaf(key: Key, valueHash: Digest)
    | Value(bytes: Bytes)
    | MachineCommitment(stateRoot: Digest, pc: nat)
    | AssertionHash(parent: Digest, proposer: nat, pre: Digest, post: Digest,
                    batch: Digest, traceLength: nat, bond: nat)
    | BatchLeaf(index: nat, startPc: nat, txBytes: Bytes)
    | BatchNode(batchLeft: Digest, batchRight: Digest)
    | BatchHeader(timestamp: nat, baseFee: nat, feeRecipient: Bytes, txCount: nat, txRoot: Digest)
    | GovernanceDigest(epoch: nat, update: Bytes)
    | Unhashed(tag: nat)
}
