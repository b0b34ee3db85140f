/** The trie as the node keeps it: a content-addressed node store that is only ever added to. */
module MerkleTries {
  import opened Digests
  import opened TrieTree
  import opened MerkleProofs

  datatype Node = InternalNode(left: Digest, right: Digest) | LeafNode(key: Key, valueHash: Digest)

  /** The two kinds of node hash in different domains. */
  function NodeHash(n: Node): Digest {
    match n
    case InternalNode(l, r) => TrieInternal(l, r)
    case LeafNode(k, v) => TrieLeaf(k, v)
  }

  function Height(t: Digest): nat {
    match t
    case TrieInternal(l, r) => 1 + Max(Height(l), Height(r))
    case _ => 0
  }

  /** Every node is filed under its own hash, and none is deeper than a key is long. */
  ghost predicate StoreOk(nodes: map<Digest, Node>) {
    && (forall h :: h in nodes ==> NodeHash(nodes[h]) == h && Height(h) <= KEY_BITS)
    && Closed(nodes)
  }

  /** Below every stored node the whole tree is stored. */
  ghost predicate Closed(nodes: map<Digest, Node>) {
    forall h {:trigger Stored(nodes, h)} :: h in nodes ==> Stored(nodes, h)
  }

  /** The whole tree below `t` is in the store. */
  ghost predicate Stored(nodes: map<Digest, Node>, t: Digest) {
    match t
    case Zero => true
    case TrieLeaf(_, _) => t in nodes
    case TrieInternal(l, r) => t in nodes && Stored(nodes, l) && Stored(nodes, r)
    case _ => false
  }

  lemma {:induction false} StoredMonotone(nodes: map<Digest, Node>, more: map<Digest, Node>, t: Digest)
    requires Stored(nodes, t) && nodes.Keys <= more.Keys
    ensures Stored(more, t)
    decreases t
  {
    if t.TrieInternal? {
      StoredMonotone(nodes, more, t.left);
      StoredMonotone(nodes, more, t.right);
    }
  }

  lemma ClosedGrows(nodes: map<Digest, Node>, node: Node)
    requires Closed(nodes) && (node.InternalNode? ==> Stored(nodes, node.left) && Stored(nodes, node.right))
    ensures Closed(nodes[NodeHash(node) := node]) && Stored(nodes[NodeHash(node) := node], NodeHash(node))
  {
    var more := nodes[NodeHash(node) := node];
    if node.InternalNode? {
      StoredMonotone(nodes, more, node.left);
      StoredMonotone(nodes, more, node.right);
    }
    forall h | h in more ensures Stored(more, h) {
      if h in nodes {
        assert Stored(nodes, h);
        StoredMonotone(nodes, more, h);
      }
    }
  }

  lemma {:induction false} CanonHeight(t: Digest, p: seq<bool>)
    requires Canon(t, p)
    ensures |p| + Height(t) <= KEY_BITS
    decreases t
  {
    if t.TrieInternal? {
      CanonHeight(t.left, p + [false]);
      CanonHeight(t.right, p + [true]);
    }
  }

  // ----- snapshots

  /** What `to_bytes` records: the root and every binding. */
  datatype Snapshot = Snapshot(root: Digest, entries: seq<(Key, Bytes)>)

  datatype LoadError = SnapshotRootMismatch(recorded: Digest, rebuilt: Digest)

  /** `entries` binds each key of `m` once, and nothing else. */
  ghost predicate Lists(entries: seq<(Key, Bytes)>, m: map<Key, Bytes>) {
    && (forall i :: 0 <= i < |entries| ==> entries[i].0 in m && m[entries[i].0] == entries[i].1)
    && (forall k :: k in m ==> exists i :: 0 <= i < |entries| && entries[i].0 == k)
  }

  /** Inserting recorded bindings one after another into an empty trie. */
  function Rebuild(entries: seq<(Key, Bytes)>): State
    decreases |entries|
  {
    if entries == [] then EmptyState
    else
      var (k, v) := entries[|entries| - 1];
      TrieTree.Insert(Rebuild(entries[..|entries| - 1]), k, v)
  }

  lemma RebuildNext(entries: seq<(Key, Bytes)>, i: nat)
    requires i < |entries|
    ensures Rebuild(entries[..i + 1]) == TrieTree.Insert(Rebuild(entries[..i]), entries[i].0, entries[i].1)
  {
    assert entries[..i + 1][..i] == entries[..i];
  }

  lemma {:induction false} RebuildCommits(entries: seq<(Key, Bytes)>)
    ensures Commits(Rebuild(entries))
    ensures forall k :: k in Rebuild(entries).values <==> exists i :: 0 <= i < |entries| && entries[i].0 == k
    ensures forall k :: k in Rebuild(entries).values ==>
              exists i :: 0 <= i < |entries| && entries[i] == (k, Rebuild(entries).values[k])
    decreases |entries|
  {
    if entries != [] {
      var n := |entries| - 1;
      var front := entries[..n];
      RebuildCommits(front);
      InsertCommits(Rebuild(front), entries[n].0, entries[n].1);
      forall k ensures k in Rebuild(entries).values <==> exists i :: 0 <= i < |entries| && entries[i].0 == k {
        if k in Rebuild(front).values {
          var i :| 0 <= i < |front| && front[i].0 == k;
          assert entries[i].0 == k;
        }
        if i :| 0 <= i < |entries| && entries[i].0 == k {
          if i < n { assert front[i].0 == k; }
        }
        assert entries[n].0 in Rebuild(entries).values;
      }
      forall k | k in Rebuild(entries).values
        ensures exists i :: 0 <= i < |entries| && entries[i] == (k, Rebuild(entries).values[k])
      {
        if k == entries[n].0 {
          assert entries[n] == (k, Rebuild(entries).values[k]);
        } else {
          var i :| 0 <= i < |front| && front[i] == (k, Rebuild(front).values[k]);
          assert entries[i] == (k, Rebuild(entries).values[k]);
        }
      }
    }
  }

  /** Whatever history produced a trie, re-inserting its bindings in any order rebuilds the same
      contents and the same root, so a snapshot always loads. */
  lemma SnapshotRoundTrip(s: State, entries: seq<(Key, Bytes)>)
    requires Commits(s) && Lists(entries, s.values)
    ensures Rebuild(entries) == s
  {
    RebuildCommits(entries);
    var t := Rebuild(entries);
    assert t.values.Keys == s.values.Keys;
    forall k | k in s.values ensures t.values[k] == s.values[k] {
      var i :| 0 <= i < |entries| && entries[i] == (k, t.values[k]);
    }
    assert t.values == s.values;
    RootDeterminesContents(s, t);
  }

  // ----- the trie

  function Prepend(siblings: seq<Digest>, p: MerkleProof): MerkleProof {
    MerkleProof(siblings + p.siblings, p.terminal)
  }

  lemma PrependStep(siblings: seq<Digest>, sibling: Digest, p: MerkleProof)
    ensures Prepend(siblings, MerkleProof([sibling] + p.siblings, p.terminal)) == Prepend(siblings + [sibling], p)
  {
    assert siblings + ([sibling] + p.siblings) == siblings + [sibling] + p.siblings;
  }

  class MerkleTrie {
    var nodes: map<Digest, Node>
    var values: map<Key, Bytes>
    var root: Digest
    /** Every state the trie has been in. */
    ghost var history: set<State>

    ghost function Now(): State
      reads this
    {
      State(values, root)
    }

    ghost predicate Valid()
      reads this
    {
      && StoreOk(nodes)
      && Now() in history
      && forall s :: s in history ==> Commits(s) && Stored(nodes, s.root)
    }

    constructor ()
      ensures Valid() && Now() == EmptyState && history == {EmptyState}
    {
      nodes, values, root := map[], map[], Zero;
      history := {EmptyState};
    }

    /** A copy that evolves independently. */
    method Clone() returns (c: MerkleTrie)
      requires Valid()
      ensures fresh(c) && c.Valid() && c.Now() == Now() && c.history == history
    {
      c := new MerkleTrie();
      c.nodes, c.values, c.root := nodes, values, root;
      c.history := history;
    }

    /** Overwrites or adds one binding. No node is evicted, so every earlier state stays provable. */
    method Insert(k: Key, v: Bytes) returns (r: Digest)
      requires Valid()
      modifies this
      ensures Valid() && r == root
      ensures Now() == TrieTree.Insert(old(Now()), k, v)
      ensures history == old(history) + {Now()}
    {
      InsertCommits(Now(), k, v);
      ghost var before := nodes;
      values := values[k := v];
      root := InsertAt(root, 0, k, Value(v), []);
      ghost var s := Now();
      forall t | t in history ensures Stored(nodes, t.root) {
        StoredMonotone(before, nodes, t.root);
      }
      history := history + {s};
      r := root;
    }

    /** Erases one binding; erasing an absent key changes nothing. */
    method Remove(k: Key) returns (r: Digest)
      requires Valid()
      modifies this
      ensures Valid() && r == root
      ensures Now() == TrieTree.Remove(old(Now()), k)
      ensures history == old(history) + {Now()}
    {
      if k !in values {
        return root;
      }
      RemoveCommits(Now(), k);
      ghost var before := nodes;
      values := values - {k};
      root := RemoveAt(root, 0, k, []);
      ghost var s := Now();
      forall t | t in history ensures Stored(nodes, t.root) {
        StoredMonotone(before, nodes, t.root);
      }
      history := history + {s};
      r := root;
    }

    /** A proof of `k` against the current root. */
    method Prove(k: Key) returns (p: MerkleProof)
      requires Valid()
      ensures p == ProofOf(root, 0, k)
      ensures ReconstructRoot(p, k) == Ok(root)
      ensures k in values ==> VerifyInclusion(p, root, k, values[k]).Ok?
      ensures k !in values ==> VerifyNonInclusion(p, root, k).Ok?
    {
      p := ProveAt(root, k);
      assert Now() in history;
    }

    /** A proof of `k` against any root the trie has ever had verifies what was stored then. Against
        any digest at all, it verifies exactly what lies on a path of that digest in the store:
        nothing, for a digest the store does not know, other than the empty root. */
    method ProveAt(at: Digest, k: Key) returns (p: MerkleProof)
      requires Valid()
      ensures Stored(nodes, at) ==> p == ProofOf(at, 0, k)
      ensures forall s :: s in history && s.root == at ==>
                && ReconstructRoot(p, k) == Ok(at)
                && (k in s.values ==> VerifyInclusion(p, at, k, s.values[k]).Ok?)
                && (k !in s.values ==> VerifyNonInclusion(p, at, k).Ok?)
      ensures ReconstructRoot(p, k) == Ok(at) <==> at.Zero? || (at in nodes && OnPath(at, 0, k))
      ensures VerifyNonInclusion(p, at, k).Ok? <==> (at.Zero? || (at in nodes && OnPath(at, 0, k))) && Lookup(at, 0, k) == None
      ensures forall v :: VerifyInclusionHashed(p, at, k, v).Ok? <==> at in nodes && Lookup(at, 0, k) == Some(v)
    {
      p := Walk(at, k);
      if at in nodes {
        assert Stored(nodes, at);
      }
      if at in nodes || at.Zero? {
        forall v ensures VerifyInclusionHashed(p, at, k, v).Ok? <==> Lookup(at, 0, k) == Some(v) {
          WalkedProofsExact(at, k, v);
        }
        WalkedProofsExact(at, k, Zero);
      }
      forall s | s in history && s.root == at
        ensures ReconstructRoot(p, k) == Ok(at)
        ensures k in s.values ==> VerifyInclusion(p, at, k, s.values[k]).Ok?
        ensures k !in s.values ==> VerifyNonInclusion(p, at, k).Ok?
      {
        assert Lookup(at, 0, k) == HashAt(s.values, k);
        ProofsAreComplete(at, k, if k in s.values then Value(s.values[k]) else Zero);
      }
    }

    /** Descends from `r` along the bits of `k`, collecting siblings, until no branch is found. */
    method Walk(r: Digest, k: Key) returns (p: MerkleProof)
      requires StoreOk(nodes)
      ensures Stored(nodes, r) ==> p == ProofOf(r, 0, k)
      ensures r !in nodes ==> p == MerkleProof([], Empty)
    {
      var siblings: seq<Digest> := [];
      var current := r;
      var depth := 0;
      while current in nodes && nodes[current].InternalNode?
        invariant depth == |siblings|
        invariant current in nodes ==> depth + Height(current) <= KEY_BITS
        invariant Stored(nodes, r) ==> Stored(nodes, current)
        invariant Stored(nodes, r) ==> ProofOf(r, 0, k) == Prepend(siblings, ProofOf(current, depth, k))
        invariant r !in nodes ==> current == r && siblings == []
        decreases current
      {
        var node := nodes[current];
        assert NodeHash(node) == current;
        var next := if k[depth] then node.right else node.left;
        var sibling := if k[depth] then node.left else node.right;
        PrependStep(siblings, sibling, ProofOf(next, depth + 1, k));
        siblings := siblings + [sibling];
        current := next;
        depth := depth + 1;
      }
      p := MerkleProof(siblings, Empty);
      if current in nodes {
        assert NodeHash(nodes[current]) == current;
        p := MerkleProof(siblings, Leaf(nodes[current].key, nodes[current].valueHash));
      }
      assert siblings + [] == siblings;
    }

    method Store(node: Node) returns (h: Digest)
      requires StoreOk(nodes) && Height(NodeHash(node)) <= KEY_BITS
      requires node.InternalNode? ==> Stored(nodes, node.left) && Stored(nodes, node.right)
      modifies this`nodes
      ensures StoreOk(nodes) && h == NodeHash(node) && Stored(nodes, h)
      ensures nodes == old(nodes)[h := node]
    {
      h := NodeHash(node);
      ClosedGrows(nodes, node);
      nodes := nodes[h := node];
    }

    /** Stores a branch over two subtrees the store already holds. */
    method StoreBranch(l: Digest, r: Digest) returns (h: Digest)
      requires StoreOk(nodes) && Stored(nodes, l) && Stored(nodes, r)
      requires Height(TrieInternal(l, r)) <= KEY_BITS
      modifies this`nodes
      ensures StoreOk(nodes) && old(nodes).Keys <= nodes.Keys
      ensures h == TrieInternal(l, r) && Stored(nodes, h)
    {
      h := Store(InternalNode(l, r));
    }

    method InsertAt(t: Digest, d: nat, k: Key, v: Digest, ghost p: seq<bool>) returns (r: Digest)
      requires StoreOk(nodes) && Stored(nodes, t) && Canon(t, p) && d == |p| && p <= k
      modifies this`nodes
      ensures StoreOk(nodes) && old(nodes).Keys <= nodes.Keys
      ensures r == InsertTree(t, d, k, v) && Stored(nodes, r)
      decreases t, 1
    {
      InsertSpec(t, p, k, v, k);
      CanonHeight(InsertTree(t, d, k, v), p);
      if t !in nodes {
        r := Store(LeafNode(k, v));
      } else {
        var node := nodes[t];
        assert NodeHash(node) == t;
        match node
        case LeafNode(key, prev) =>
          if key == k {
            r := Store(LeafNode(k, v));
          } else {
            r := SplitAt(d, k, v, key, prev, p);
          }
        case InternalNode(l, right) => r := InsertBelow(l, right, d, k, v, p);
      }
    }

    /** Inserts on the side of an internal node the key lies on. */
    method InsertBelow(l: Digest, right: Digest, d: nat, k: Key, v: Digest, ghost p: seq<bool>) returns (r: Digest)
      requires StoreOk(nodes) && Stored(nodes, TrieInternal(l, right)) && Canon(TrieInternal(l, right), p) && d == |p| && p <= k
      requires Height(InsertTree(TrieInternal(l, right), d, k, v)) <= KEY_BITS
      modifies this`nodes
      ensures StoreOk(nodes) && old(nodes).Keys <= nodes.Keys
      ensures r == InsertTree(TrieInternal(l, right), d, k, v) && Stored(nodes, r)
      decreases TrieInternal(l, right), 0
    {
      PrefixStep(p, k[d], k);
      var child := InsertAt(if k[d] then right else l, d + 1, k, v, p + [k[d]]);
      StoredMonotone(old(nodes), nodes, if k[d] then l else right);
      r := StoreBranch(if k[d] then l else child, if k[d] then child else right);
    }

    /** Builds the chain of internal nodes separating two distinct keys. */
    method SplitAt(d: nat, ka: Key, va: Digest, kb: Key, vb: Digest, ghost p: seq<bool>) returns (r: Digest)
      requires StoreOk(nodes) && d == |p| <= KEY_BITS && p <= ka && p <= kb && ka != kb
      modifies this`nodes
      ensures StoreOk(nodes) && old(nodes).Keys <= nodes.Keys
      ensures r == Split(d, ka, va, kb, vb) && Stored(nodes, r)
      decreases KEY_BITS - d
    {
      SplitSpec(p, ka, va, kb, vb, ka);
      CanonHeight(Split(d, ka, va, kb, vb), p);
      if ka[d] == kb[d] {
        PrefixStep(p, ka[d], ka);
        PrefixStep(p, ka[d], kb);
        var child := SplitAt(d + 1, ka, va, kb, vb, p + [ka[d]]);
        r := StoreBranch(if ka[d] then Zero else child, if ka[d] then child else Zero);
      } else {
        r := StorePair(if ka[d] then kb else ka, if ka[d] then vb else va, if ka[d] then ka else kb, if ka[d] then va else vb);
      }
    }

    /** Two leaves side by side. */
    method StorePair(kl: Key, vl: Digest, kr: Key, vr: Digest) returns (h: Digest)
      requires StoreOk(nodes)
      modifies this`nodes
      ensures StoreOk(nodes) && old(nodes).Keys <= nodes.Keys
      ensures h == TrieInternal(TrieLeaf(kl, vl), TrieLeaf(kr, vr)) && Stored(nodes, h)
    {
      var left := Store(LeafNode(kl, vl));
      var right := Store(LeafNode(kr, vr));
      h := StoreBranch(left, right);
    }

    method RemoveAt(t: Digest, d: nat, k: Key, ghost p: seq<bool>) returns (r: Digest)
      requires StoreOk(nodes) && Stored(nodes, t) && Canon(t, p) && d == |p| && p <= k
      modifies this`nodes
      ensures StoreOk(nodes) && old(nodes).Keys <= nodes.Keys
      ensures r == RemoveTree(t, d, k) && Stored(nodes, r)
      decreases t
    {
      RemoveSpec(t, p, k, k);
      CanonHeight(RemoveTree(t, d, k), p);
      if t !in nodes {
        return Zero;
      }
      var node := nodes[t];
      assert NodeHash(node) == t;
      match node
      case LeafNode(key, _) =>
        r := if key == k then Zero else t;
      case InternalNode(l, right) =>
        PrefixStep(p, k[d], k);
        var child := RemoveAt(if k[d] then right else l, d + 1, k, p + [k[d]]);
        StoredMonotone(old(nodes), nodes, if k[d] then l else right);
        var newLeft, newRight := if k[d] then l else child, if k[d] then child else right;
        var lone := LoneChild(newLeft, newRight);
        if lone.Some? {
          r := lone.value;
        } else if newLeft == Zero && newRight == Zero {
          r := Zero;
        } else {
          r := StoreBranch(newLeft, newRight);
        }
    }

    /** The surviving leaf, if exactly one child is a leaf and the other is empty. */
    method LoneChild(l: Digest, r: Digest) returns (leaf: Option<Digest>)
      requires StoreOk(nodes) && Stored(nodes, l) && Stored(nodes, r)
      ensures leaf.Some? <==> (l.Zero? && r.TrieLeaf?) || (l.TrieLeaf? && r.Zero?)
      ensures leaf.Some? ==> leaf.value == Collapse(l, r)
    {
      if (l == Zero) == (r == Zero) {
        return None;
      }
      var candidate := if l == Zero then r else l;
      if candidate in nodes {
        assert NodeHash(nodes[candidate]) == candidate;
        if nodes[candidate].LeafNode? {
          return Some(candidate);
        }
      }
      return None;
    }

    /** Records the root and every binding, in some order. */
    method ToSnapshot() returns (s: Snapshot)
      requires Valid()
      ensures s.root == root && Lists(s.entries, values)
      ensures forall i, j :: 0 <= i < j < |s.entries| ==> s.entries[i].0 != s.entries[j].0
      ensures Rebuild(s.entries) == Now()
    {
      var entries: seq<(Key, Bytes)> := [];
      var left := values.Keys;
      while left != {}
        invariant left <= values.Keys
        invariant forall i :: 0 <= i < |entries| ==>
                    && entries[i].0 in values && values[entries[i].0] == entries[i].1 && entries[i].0 !in left
        invariant forall k :: k in values && k !in left ==> exists i :: 0 <= i < |entries| && entries[i].0 == k
        invariant forall i, j :: 0 <= i < j < |entries| ==> entries[i].0 != entries[j].0
        decreases left
      {
        var k :| k in left;
        ghost var before := entries;
        entries := entries + [(k, values[k])];
        left := left - {k};
        forall q | q in values && q !in left ensures exists i :: 0 <= i < |entries| && entries[i].0 == q {
          if q == k {
            assert entries[|before|].0 == q;
          } else {
            var i :| 0 <= i < |before| && before[i].0 == q;
            assert entries[i].0 == q;
          }
        }
      }
      s := Snapshot(root, entries);
      assert Commits(Now());
      SnapshotRoundTrip(Now(), entries);
    }

    /** Rebuilds a trie and accepts it exactly when it reaches the recorded root. */
    static method FromSnapshot(s: Snapshot) returns (r: Result<MerkleTrie, LoadError>)
      ensures r.Ok? <==> Rebuild(s.entries).root == s.root
      ensures r.Ok? ==> fresh(r.value) && r.value.Valid() && r.value.Now() == Rebuild(s.entries)
      ensures r.Err? ==> r.error == SnapshotRootMismatch(s.root, Rebuild(s.entries).root)
    {
      var trie := new MerkleTrie();
      for i := 0 to |s.entries|
        invariant fresh(trie) && trie.Valid() && trie.Now() == Rebuild(s.entries[..i])
      {
        RebuildNext(s.entries, i);
        var _ := trie.Insert(s.entries[i].0, s.entries[i].1);
      }
      assert s.entries[..|s.entries|] == s.entries;
      if trie.root == s.root {
        return Ok(trie);
      }
      return Err(SnapshotRootMismatch(s.root, trie.root));
    }
  }

  /** A digest that was never a root can verify, against the documented promise. Two keys that part
      at their second bit leave an interior node that is no state's root; walked from the top with
      the one key it ends at the other's leaf, which agrees on the bit walked, and the proof shows a
      key stored below the node as absent. */
  lemma InteriorNodeVerifies(k0: Key, v0: Bytes, k1: Key, v1: Bytes)
    requires k0[0] && k1[0] && !k0[1] && k1[1]
    ensures var one := TrieTree.Insert(EmptyState, k0, v0);
            var two := TrieTree.Insert(one, k1, v1);
            var at := TrieInternal(TrieLeaf(k0, Value(v0)), TrieLeaf(k1, Value(v1)));
            && two.root == TrieInternal(Zero, at)
            && at != EmptyState.root && at != one.root && at != two.root
            && (forall nodes: map<Digest, Node> :: Stored(nodes, two.root) ==> at in nodes)
            && k0 in two.values && VerifyNonInclusion(ProofOf(at, 0, k0), at, k0).Ok?
  {
    var at := TrieInternal(TrieLeaf(k0, Value(v0)), TrieLeaf(k1, Value(v1)));
    assert k0 != k1;
    assert Split(1, k1, Value(v1), k0, Value(v0)) == at;
    assert OnPath(at, 0, k0) && Lookup(at, 0, k0) == None;
    WalkedProofsExact(at, k0, Zero);
  }
}
