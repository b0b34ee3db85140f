/** Inclusion and non-inclusion proofs against a state root, and the stateless root update. */
module MerkleProofs {
  import opened Digests
  import opened TrieTree

  /** What a proof path ends in. */
  datatype Terminal = Empty | Leaf(key: Key, valueHash: Digest)

  /** Sibling hashes root-first, and the node the path terminates in. */
  datatype MerkleProof = MerkleProof(siblings: seq<Digest>, terminal: Terminal)

  datatype ProofError =
    | TooDeep(depth: nat)
    | RootMismatch(computed: Digest, expected: Digest)
    | LeafOffPath(depth: nat)
    | KeyAbsent
    | DifferentKey
    | ValueMismatch(found: Digest, expected: Digest)
    | KeyPresent

  function TerminalHash(t: Terminal): Digest {
    match t
    case Empty => Zero
    case Leaf(k, v) => TrieLeaf(k, v)
  }

  /** The first level in `[i, n)` at which the keys differ, or `n`. */
  function FirstDifference(a: Key, b: Key, i: nat, n: nat): (j: nat)
    requires i <= n <= KEY_BITS
    ensures i <= j <= n
    ensures forall l :: i <= l < j ==> a[l] == b[l]
    ensures j < n ==> a[j] != b[j]
    decreases n - i
  {
    if i == n || a[i] != b[i] then i else FirstDifference(a, b, i + 1, n)
  }

  /** `bottom` hashed up through `siblings`, the queried key choosing the side at each level. */
  function Fold(k: Key, siblings: seq<Digest>, d: nat, bottom: Digest): Digest
    requires d + |siblings| <= KEY_BITS
    decreases |siblings|
  {
    if siblings == [] then bottom
    else
      var below := Fold(k, siblings[1..], d + 1, bottom);
      if k[d] then TrieInternal(siblings[0], below) else TrieInternal(below, siblings[0])
  }

  function ReconstructRoot(p: MerkleProof, k: Key): Result<Digest, ProofError> {
    var depth := |p.siblings|;
    if depth > KEY_BITS then Err(TooDeep(depth))
    else if p.terminal.Leaf? && FirstDifference(p.terminal.key, k, 0, depth) < depth then
      Err(LeafOffPath(FirstDifference(p.terminal.key, k, 0, depth)))
    else Ok(Fold(k, p.siblings, 0, TerminalHash(p.terminal)))
  }

  function VerifyInclusionHashed(p: MerkleProof, root: Digest, k: Key, valueHash: Digest): Result<(), ProofError> {
    var computed :- ReconstructRoot(p, k);
    if computed != root then Err(RootMismatch(computed, root))
    else match p.terminal
      case Empty => Err(KeyAbsent)
      case Leaf(key, found) =>
        if key != k then Err(DifferentKey)
        else if found == valueHash then Ok(())
        else Err(ValueMismatch(found, valueHash))
  }

  function VerifyInclusion(p: MerkleProof, root: Digest, k: Key, value: Bytes): Result<(), ProofError> {
    VerifyInclusionHashed(p, root, k, Value(value))
  }

  function VerifyNonInclusion(p: MerkleProof, root: Digest, k: Key): Result<(), ProofError> {
    var computed :- ReconstructRoot(p, k);
    if computed != root then Err(RootMismatch(computed, root))
    else if p.terminal.Leaf? && p.terminal.key == k then Err(KeyPresent)
    else Ok(())
  }

  /** `split_hash`: the separating subtree derived from the two leaves alone. */
  function SplitHash(d: nat, ka: Key, va: Digest, kb: Key, vb: Digest): Result<Digest, ProofError>
    decreases KEY_BITS - d
  {
    if d >= KEY_BITS then Err(TooDeep(d))
    else if ka[d] == kb[d] then
      var child :- SplitHash(d + 1, ka, va, kb, vb);
      Ok(if ka[d] then TrieInternal(Zero, child) else TrieInternal(child, Zero))
    else
      Ok(if ka[d] then TrieInternal(TrieLeaf(kb, vb), TrieLeaf(ka, va))
         else TrieInternal(TrieLeaf(ka, va), TrieLeaf(kb, vb)))
  }

  /** The terminal position after writing `newHash` at `k`. */
  function UpdatedTerminal(p: MerkleProof, k: Key, newHash: Digest): Result<Digest, ProofError>
    requires |p.siblings| <= KEY_BITS
  {
    var depth := |p.siblings|;
    match p.terminal
    case Empty => Ok(TrieLeaf(k, newHash))
    case Leaf(key, valueHash) =>
      if key == k then Ok(TrieLeaf(k, newHash))
      else if FirstDifference(key, k, 0, depth) < depth then Err(LeafOffPath(FirstDifference(key, k, 0, depth)))
      else SplitHash(depth, k, newHash, key, valueHash)
  }

  function ComputeUpdatedRoot(p: MerkleProof, k: Key, newHash: Digest): Result<Digest, ProofError> {
    if |p.siblings| > KEY_BITS then Err(TooDeep(|p.siblings|))
    else
      var bottom :- UpdatedTerminal(p, k, newHash);
      Ok(Fold(k, p.siblings, 0, bottom))
  }

  /** The proof read off a tree: the path `prove_at` walks. */
  function ProofOf(t: Digest, d: nat, k: Key): MerkleProof {
    match t
    case TrieLeaf(key, v) => MerkleProof([], Leaf(key, v))
    case TrieInternal(l, r) =>
      if d >= KEY_BITS then MerkleProof([], Empty)
      else
        var below := ProofOf(if k[d] then r else l, d + 1, k);
        MerkleProof([if k[d] then l else r] + below.siblings, below.terminal)
    case _ => MerkleProof([], Empty)
  }

  // ----- the loops of the source

  /** Folds upward from the terminal, deepest sibling first. */
  method FoldLoop(k: Key, siblings: seq<Digest>, bottom: Digest) returns (running: Digest)
    requires |siblings| <= KEY_BITS
    ensures running == Fold(k, siblings, 0, bottom)
  {
    running := bottom;
    var level := |siblings|;
    while level > 0
      invariant 0 <= level <= |siblings|
      invariant running == Fold(k, siblings[level..], level, bottom)
    {
      level := level - 1;
      assert siblings[level..][1..] == siblings[level + 1..];
      running := if k[level] then TrieInternal(siblings[level], running) else TrieInternal(running, siblings[level]);
    }
    assert siblings[0..] == siblings;
  }

  /** Walks the consumed bits of two keys and reports the first at which they part. */
  method OffPathAt(a: Key, b: Key, depth: nat) returns (at: Option<nat>)
    requires depth <= KEY_BITS
    ensures at == (if FirstDifference(a, b, 0, depth) < depth then Some(FirstDifference(a, b, 0, depth)) else None)
  {
    for i := 0 to depth
      invariant FirstDifference(a, b, 0, depth) == FirstDifference(a, b, i, depth)
    {
      if a[i] != b[i] {
        return Some(i);
      }
    }
    return None;
  }

  method RunReconstructRoot(p: MerkleProof, k: Key) returns (r: Result<Digest, ProofError>)
    ensures r == ReconstructRoot(p, k)
  {
    var depth := |p.siblings|;
    if depth > KEY_BITS {
      return Err(TooDeep(depth));
    }
    if p.terminal.Leaf? {
      var at := OffPathAt(p.terminal.key, k, depth);
      if at.Some? {
        return Err(LeafOffPath(at.value));
      }
    }
    var running := FoldLoop(k, p.siblings, TerminalHash(p.terminal));
    return Ok(running);
  }

  method RunComputeUpdatedRoot(p: MerkleProof, k: Key, newHash: Digest) returns (r: Result<Digest, ProofError>)
    ensures r == ComputeUpdatedRoot(p, k, newHash)
  {
    var depth := |p.siblings|;
    if depth > KEY_BITS {
      return Err(TooDeep(depth));
    }
    var running := TrieLeaf(k, newHash);
    if p.terminal.Leaf? && p.terminal.key != k {
      var at := OffPathAt(p.terminal.key, k, depth);
      if at.Some? {
        return Err(LeafOffPath(at.value));
      }
      var split := SplitHash(depth, k, newHash, p.terminal.key, p.terminal.valueHash);
      if split.Err? {
        return split;
      }
      running := split.value;
    }
    running := FoldLoop(k, p.siblings, running);
    return Ok(running);
  }

  // ----- soundness

  /** Whatever a path folds to, a lookup along it ends at the path's bottom. */
  lemma {:induction false} FoldLookup(k: Key, siblings: seq<Digest>, d: nat, bottom: Digest)
    requires d + |siblings| <= KEY_BITS
    ensures Lookup(Fold(k, siblings, d, bottom), d, k) == Lookup(bottom, d + |siblings|, k)
    decreases |siblings|
  {
    if siblings != [] {
      FoldLookup(k, siblings[1..], d + 1, bottom);
    }
  }

  /** No proof verifies a value the root does not commit to at that key, or the absence of one
      it does: for every root, canonical or not, and every proof anyone can write. */
  lemma ProofsAreSound(p: MerkleProof, root: Digest, k: Key, valueHash: Digest)
    ensures VerifyInclusionHashed(p, root, k, valueHash).Ok? ==> Lookup(root, 0, k) == Some(valueHash)
    ensures VerifyNonInclusion(p, root, k).Ok? ==> Lookup(root, 0, k) == None
  {
    if |p.siblings| <= KEY_BITS {
      FoldLookup(k, p.siblings, 0, TerminalHash(p.terminal));
    }
  }

  // ----- completeness

  lemma {:induction false} ProofOfFolds(t: Digest, q: seq<bool>, k: Key)
    requires Canon(t, q) && q <= k
    ensures var p := ProofOf(t, |q|, k);
            && |q| + |p.siblings| <= KEY_BITS
            && Fold(k, p.siblings, |q|, TerminalHash(p.terminal)) == t
            && (p.terminal.Leaf? ==> forall i :: 0 <= i < |q| + |p.siblings| ==> p.terminal.key[i] == k[i])
            && Lookup(t, |q|, k) == (if p.terminal.Leaf? && p.terminal.key == k then Some(p.terminal.valueHash) else None)
    decreases t
  {
    match t
    case TrieInternal(l, r) =>
      PrefixStep(q, k[|q|], k);
      ProofOfFolds(if k[|q|] then r else l, q + [k[|q|]], k);
      var below := ProofOf(if k[|q|] then r else l, |q| + 1, k);
      assert ProofOf(t, |q|, k).siblings[1..] == below.siblings;
    case _ =>
  }

  /** The walk from `t` at depth `d` stays within the key's length and ends at an empty position,
      or at a leaf that agrees with `k` on every bit walked. */
  predicate OnPath(t: Digest, d: nat, k: Key) {
    match t
    case Zero => true
    case TrieLeaf(key, _) => d <= KEY_BITS && key[..d] == k[..d]
    case TrieInternal(l, r) => d < KEY_BITS && OnPath(if k[d] then r else l, d + 1, k)
    case _ => false
  }

  lemma {:induction false} PathFolds(t: Digest, d: nat, k: Key)
    requires d <= KEY_BITS
    ensures var p := ProofOf(t, d, k);
            && d + |p.siblings| <= KEY_BITS
            && (OnPath(t, d, k) <==>
                  && Fold(k, p.siblings, d, TerminalHash(p.terminal)) == t
                  && (p.terminal.Leaf? ==> p.terminal.key[..d + |p.siblings|] == k[..d + |p.siblings|]))
            && (OnPath(t, d, k) ==>
                  Lookup(t, d, k) == if p.terminal.Leaf? && p.terminal.key == k then Some(p.terminal.valueHash) else None)
    decreases t
  {
    if t.TrieInternal? && d < KEY_BITS {
      var child := if k[d] then t.right else t.left;
      PathFolds(child, d + 1, k);
      assert ProofOf(t, d, k).siblings[1..] == ProofOf(child, d + 1, k).siblings;
    }
  }

  /** A key found on a walk is on its own path. */
  lemma {:induction false} FoundOnPath(t: Digest, d: nat, k: Key)
    requires d <= KEY_BITS && Lookup(t, d, k).Some?
    ensures OnPath(t, d, k)
    decreases t
  {
    if t.TrieInternal? {
      FoundOnPath(if k[d] then t.right else t.left, d + 1, k);
    }
  }

  lemma AgreeTo(a: Key, b: Key, n: nat)
    requires n <= KEY_BITS
    ensures FirstDifference(a, b, 0, n) < n <==> a[..n] != b[..n]
  {
    var j := FirstDifference(a, b, 0, n);
    if j < n {
      assert a[..n][j] != b[..n][j];
    }
  }

  /** What the proof walked from any digest at all verifies against that digest: it reconstructs
      exactly along the digest's own paths, includes exactly what is found there, and excludes
      exactly what is not found along a path. */
  lemma WalkedProofsExact(t: Digest, k: Key, valueHash: Digest)
    ensures var p := ProofOf(t, 0, k);
            && (ReconstructRoot(p, k) == Ok(t) <==> OnPath(t, 0, k))
            && (VerifyInclusionHashed(p, t, k, valueHash).Ok? <==> Lookup(t, 0, k) == Some(valueHash))
            && (VerifyNonInclusion(p, t, k).Ok? <==> OnPath(t, 0, k) && Lookup(t, 0, k) == None)
  {
    var p := ProofOf(t, 0, k);
    PathFolds(t, 0, k);
    if p.terminal.Leaf? {
      AgreeTo(p.terminal.key, k, |p.siblings|);
    }
    if Lookup(t, 0, k).Some? {
      FoundOnPath(t, 0, k);
    }
  }

  /** The proof read off a canonical root verifies: inclusion of exactly the committed value,
      or absence, whichever is the case. */
  lemma ProofsAreComplete(root: Digest, k: Key, valueHash: Digest)
    requires Canon(root, [])
    ensures ReconstructRoot(ProofOf(root, 0, k), k) == Ok(root)
    ensures VerifyInclusionHashed(ProofOf(root, 0, k), root, k, valueHash).Ok? <==> Lookup(root, 0, k) == Some(valueHash)
    ensures VerifyNonInclusion(ProofOf(root, 0, k), root, k).Ok? <==> Lookup(root, 0, k) == None
  {
    ProofOfFolds(root, [], k);
  }

  /** Soundness and completeness in terms of the key/value map a root commits to. */
  lemma ProofsAreExact(s: State, k: Key, v: Bytes)
    requires Commits(s)
    ensures (exists p :: VerifyInclusion(p, s.root, k, v).Ok?) <==> k in s.values && s.values[k] == v
    ensures (exists p :: VerifyNonInclusion(p, s.root, k).Ok?) <==> k !in s.values
  {
    assert Lookup(s.root, 0, k) == HashAt(s.values, k);
    ProofsAreComplete(s.root, k, Value(v));
    forall p ensures VerifyInclusion(p, s.root, k, v).Ok? ==> k in s.values && s.values[k] == v {
      ProofsAreSound(p, s.root, k, Value(v));
    }
    forall p ensures VerifyNonInclusion(p, s.root, k).Ok? ==> k !in s.values {
      ProofsAreSound(p, s.root, k, Value(v));
    }
    if k in s.values && s.values[k] == v {
      assert VerifyInclusion(ProofOf(s.root, 0, k), s.root, k, v).Ok?;
    }
    if k !in s.values {
      assert VerifyNonInclusion(ProofOf(s.root, 0, k), s.root, k).Ok?;
    }
  }

  // ----- the stateless update is the stateful insert

  lemma {:induction false} SplitHashIsSplit(d: nat, ka: Key, va: Digest, kb: Key, vb: Digest)
    requires d <= KEY_BITS && ka != kb && forall i :: 0 <= i < d ==> ka[i] == kb[i]
    ensures SplitHash(d, ka, va, kb, vb) == Ok(Split(d, ka, va, kb, vb))
    decreases KEY_BITS - d
  {
    if d == KEY_BITS {
      assert false;
    } else if ka[d] == kb[d] {
      SplitHashIsSplit(d + 1, ka, va, kb, vb);
    }
  }

  lemma {:induction false} FoldInsert(k: Key, siblings: seq<Digest>, d: nat, bottom: Digest, v: Digest)
    requires d + |siblings| <= KEY_BITS
    ensures InsertTree(Fold(k, siblings, d, bottom), d, k, v)
         == Fold(k, siblings, d, InsertTree(bottom, d + |siblings|, k, v))
    decreases |siblings|
  {
    if siblings != [] {
      FoldInsert(k, siblings[1..], d + 1, bottom, v);
    }
  }

  /** From a root and any proof that reconstructs it, the verifier without state derives exactly
      the root the full trie reaches by inserting: in the empty, the overwriting and the
      leaf-splitting case, for every root. */
  lemma UpdateIsInsert(p: MerkleProof, root: Digest, k: Key, newHash: Digest)
    requires ReconstructRoot(p, k) == Ok(root)
    ensures ComputeUpdatedRoot(p, k, newHash) == Ok(InsertTree(root, 0, k, newHash))
  {
    var depth := |p.siblings|;
    FoldInsert(k, p.siblings, 0, TerminalHash(p.terminal), newHash);
    if p.terminal.Leaf? && p.terminal.key != k {
      SplitHashIsSplit(depth, k, newHash, p.terminal.key, p.terminal.valueHash);
    }
  }
}
