/** The sparse Merkle trie as a tree of digests: what a root commits to, and what
    `insert_at`, `split` and `remove_at` make of it.

    A root digest *is* the tree below it, so these functions need no node store; the class
    `MerkleTrie` shows that the store-walking code computes exactly them. */
module TrieTree {
  import opened Digests

  /** The value digest stored at `k` in the subtree `t` whose root sits at depth `d`. */
  function Lookup(t: Digest, d: nat, k: Key): Option<Digest> {
    match t
    case TrieLeaf(key, valueHash) => if key == k then Some(valueHash) else None
    case TrieInternal(l, r) =>
      if d >= KEY_BITS then None else Lookup(if k[d] then r else l, d + 1, k)
    case _ => None
  }

  /** The chain of internal nodes separating two keys from depth `d` down.
      Past the last bit there is nothing left to separate; distinct keys never get there. */
  function Split(d: nat, ka: Key, va: Digest, kb: Key, vb: Digest): Digest
    decreases KEY_BITS - d
  {
    if d >= KEY_BITS then
      Zero
    else if ka[d] == kb[d] then
      var child := Split(d + 1, ka, va, kb, vb);
      if ka[d] then TrieInternal(Zero, child) else TrieInternal(child, Zero)
    else if ka[d] then
      TrieInternal(TrieLeaf(kb, vb), TrieLeaf(ka, va))
    else
      TrieInternal(TrieLeaf(ka, va), TrieLeaf(kb, vb))
  }

  /** The subtree after writing `valueHash` at `k`. */
  function InsertTree(t: Digest, d: nat, k: Key, valueHash: Digest): Digest {
    match t
    case TrieLeaf(key, previous) =>
      if key == k then TrieLeaf(k, valueHash) else Split(d, k, valueHash, key, previous)
    case TrieInternal(l, r) =>
      if d >= KEY_BITS then t
      else if k[d] then TrieInternal(l, InsertTree(r, d + 1, k, valueHash))
      else TrieInternal(InsertTree(l, d + 1, k, valueHash), r)
    case _ => TrieLeaf(k, valueHash)
  }

  /** A branch after a removal below it: a lone leaf replaces it, an empty pair vanishes. */
  function Collapse(l: Digest, r: Digest): Digest {
    if l.Zero? && r.TrieLeaf? then r
    else if r.Zero? && l.TrieLeaf? then l
    else if l.Zero? && r.Zero? then Zero
    else TrieInternal(l, r)
  }

  /** The subtree after removing `k`. */
  function RemoveTree(t: Digest, d: nat, k: Key): Digest {
    match t
    case TrieLeaf(key, _) => if key == k then Zero else t
    case TrieInternal(l, r) =>
      if d >= KEY_BITS then t
      else if k[d] then Collapse(l, RemoveTree(r, d + 1, k))
      else Collapse(RemoveTree(l, d + 1, k), r)
    case _ => Zero
  }

  /** The canonical collapsed form: every leaf lies on its key's path, and every branch
      separates at least two leaves. */
  ghost predicate Canon(t: Digest, p: seq<bool>) {
    && |p| <= KEY_BITS
    && match t
       case Zero => true
       case TrieLeaf(k, _) => p <= k
       case TrieInternal(l, r) =>
         && |p| < KEY_BITS
         && Canon(l, p + [false])
         && Canon(r, p + [true])
         && (l.Zero? ==> r.TrieInternal?)
         && (r.Zero? ==> l.TrieInternal?)
       case _ => false
  }

  lemma PrefixStep(p: seq<bool>, b: bool, k: Key)
    requires |p| < KEY_BITS
    ensures p + [b] <= k <==> p <= k && k[|p|] == b
  {
    if p <= k && k[|p|] == b {
      assert forall i :: 0 <= i < |p + [b]| ==> (p + [b])[i] == k[i];
    }
    if p + [b] <= k {
      assert forall i :: 0 <= i < |p| ==> p[i] == (p + [b])[i] == k[i];
      assert (p + [b])[|p|] == b;
    }
  }

  /** Only keys below the prefix can be found in a canonical subtree. */
  lemma {:induction false} LookupOnPath(t: Digest, p: seq<bool>, k: Key)
    requires Canon(t, p) && Lookup(t, |p|, k).Some?
    ensures p <= k
    decreases t
  {
    if t.TrieInternal? {
      LookupOnPath(if k[|p|] then t.right else t.left, p + [k[|p|]], k);
      PrefixStep(p, k[|p|], k);
    }
  }

  /** A non-empty canonical subtree holds some key, and a branch holds at least two. */
  lemma {:induction false} Inhabited(t: Digest, p: seq<bool>) returns (a: Key, b: Key)
    requires Canon(t, p) && !t.Zero?
    ensures Lookup(t, |p|, a).Some? && Lookup(t, |p|, b).Some?
    ensures t.TrieInternal? ==> a != b
    decreases t
  {
    if t.TrieLeaf? {
      a, b := t.key, t.key;
    } else if t.left.Zero? {
      a, b := Inhabited(t.right, p + [true]);
      LookupOnPath(t.right, p + [true], a);
      LookupOnPath(t.right, p + [true], b);
      PrefixStep(p, true, a);
      PrefixStep(p, true, b);
    } else if t.right.Zero? {
      a, b := Inhabited(t.left, p + [false]);
      LookupOnPath(t.left, p + [false], a);
      LookupOnPath(t.left, p + [false], b);
      PrefixStep(p, false, a);
      PrefixStep(p, false, b);
    } else {
      a, b := Inhabited(t.left, p + [false]);
      LookupOnPath(t.left, p + [false], a);
      PrefixStep(p, false, a);
      var c, _ := Inhabited(t.right, p + [true]);
      LookupOnPath(t.right, p + [true], c);
      PrefixStep(p, true, c);
      b := c;
    }
  }

  /** Separating two keys stores exactly those two, in canonical form. */
  lemma {:induction false} SplitSpec(p: seq<bool>, ka: Key, va: Digest, kb: Key, vb: Digest, q: Key)
    requires |p| <= KEY_BITS && p <= ka && p <= kb && ka != kb
    ensures var t := Split(|p|, ka, va, kb, vb);
            && Canon(t, p) && t.TrieInternal?
            && Lookup(t, |p|, q) == if q == ka then Some(va) else if q == kb then Some(vb) else None
    decreases KEY_BITS - |p|
  {
    if |p| == KEY_BITS {
      assert false;
    } else if ka[|p|] == kb[|p|] {
      PrefixStep(p, ka[|p|], ka);
      PrefixStep(p, ka[|p|], kb);
      SplitSpec(p + [ka[|p|]], ka, va, kb, vb, q);
    } else {
      PrefixStep(p, ka[|p|], ka);
      PrefixStep(p, kb[|p|], kb);
    }
  }

  /** Inserting writes one key, leaves every other lookup alone and keeps the canonical form. */
  lemma {:induction false} InsertSpec(t: Digest, p: seq<bool>, k: Key, v: Digest, q: Key)
    requires Canon(t, p) && p <= k
    ensures var u := InsertTree(t, |p|, k, v);
            && Canon(u, p) && !u.Zero? && (t.TrieInternal? ==> u.TrieInternal?)
            && Lookup(u, |p|, q) == if q == k then Some(v) else Lookup(t, |p|, q)
    decreases t
  {
    match t
    case TrieLeaf(key, prev) =>
      if key != k {
        SplitSpec(p, k, v, key, prev, q);
      }
    case TrieInternal(l, r) =>
      PrefixStep(p, k[|p|], k);
      InsertSpec(if k[|p|] then r else l, p + [k[|p|]], k, v, q);
    case _ =>
  }

  /** Removing erases one key, leaves every other lookup alone and keeps the canonical form. */
  lemma {:induction false} RemoveSpec(t: Digest, p: seq<bool>, k: Key, q: Key)
    requires Canon(t, p) && p <= k
    ensures var u := RemoveTree(t, |p|, k);
            && Canon(u, p)
            && Lookup(u, |p|, q) == if q == k then None else Lookup(t, |p|, q)
    decreases t
  {
    match t
    case TrieInternal(l, r) =>
      var b := k[|p|];
      PrefixStep(p, b, k);
      RemoveSpec(if b then r else l, p + [b], k, q);
      CollapseSpec(p, if b then l else RemoveTree(l, |p| + 1, k),
                   if b then RemoveTree(r, |p| + 1, k) else r, q);
    case _ =>
  }

  lemma CollapseSpec(p: seq<bool>, l: Digest, r: Digest, q: Key)
    requires |p| < KEY_BITS && Canon(l, p + [false]) && Canon(r, p + [true])
    ensures Canon(Collapse(l, r), p)
    ensures Lookup(Collapse(l, r), |p|, q) == Lookup(if q[|p|] then r else l, |p| + 1, q)
  {
    if l.TrieLeaf? { PrefixStep(p, false, l.key); }
    if r.TrieLeaf? { PrefixStep(p, true, r.key); }
  }

  /** Two canonical subtrees that answer every lookup alike are the same digest: the root is a
      function of the key/value set alone. */
  lemma {:induction false} CanonUnique(t: Digest, u: Digest, p: seq<bool>)
    requires Canon(t, p) && Canon(u, p)
    requires forall k: Key :: Lookup(t, |p|, k) == Lookup(u, |p|, k)
    ensures t == u
    decreases t
  {
    if t.TrieInternal? && u.TrieInternal? {
      SameChildren(t, u, p, false);
      CanonUnique(Child(t, false), Child(u, false), p + [false]);
      SameChildren(t, u, p, true);
      CanonUnique(Child(t, true), Child(u, true), p + [true]);
    } else if !t.Zero? && !u.Zero? {
      var a, b := Inhabited(t, p);
      var c, d := Inhabited(u, p);
      assert Lookup(t, |p|, a) == Lookup(u, |p|, a);
      assert Lookup(t, |p|, b) == Lookup(u, |p|, b);
      assert Lookup(t, |p|, c) == Lookup(u, |p|, c);
      assert Lookup(t, |p|, d) == Lookup(u, |p|, d);
    } else if !t.Zero? {
      var _, _ := Inhabited(t, p);
      assert false;
    } else if !u.Zero? {
      var _, _ := Inhabited(u, p);
      assert false;
    }
  }

  function Child(t: Digest, b: bool): Digest
    requires t.TrieInternal?
  {
    if b then t.right else t.left
  }

  lemma SameChildren(t: Digest, u: Digest, p: seq<bool>, b: bool)
    requires Canon(t, p) && Canon(u, p) && t.TrieInternal? && u.TrieInternal?
    requires forall k: Key :: Lookup(t, |p|, k) == Lookup(u, |p|, k)
    ensures forall k: Key :: Lookup(Child(t, b), |p + [b]|, k) == Lookup(Child(u, b), |p + [b]|, k)
  {
    forall k: Key
      ensures Lookup(Child(t, b), |p + [b]|, k) == Lookup(Child(u, b), |p + [b]|, k)
    {
      if k[|p|] == b {
        assert Lookup(t, |p|, k) == Lookup(u, |p|, k);
      } else {
        if Lookup(Child(t, b), |p + [b]|, k).Some? { LookupOnPath(Child(t, b), p + [b], k); PrefixStep(p, b, k); }
        if Lookup(Child(u, b), |p + [b]|, k).Some? { LookupOnPath(Child(u, b), p + [b], k); PrefixStep(p, b, k); }
      }
    }
  }

  // ----- the trie as its contents and its root

  /** What a trie holds and the root it publishes. */
  datatype State = State(values: map<Key, Bytes>, root: Digest)

  function HashAt(values: map<Key, Bytes>, k: Key): Option<Digest> {
    if k in values then Some(Value(values[k])) else None
  }

  /** The root is the canonical commitment to exactly these values. */
  ghost predicate Commits(s: State) {
    && Canon(s.root, [])
    && forall k: Key :: Lookup(s.root, 0, k) == HashAt(s.values, k)
  }

  const EmptyState: State := State(map[], Zero)

  function Insert(s: State, k: Key, v: Bytes): State {
    State(s.values[k := v], InsertTree(s.root, 0, k, Value(v)))
  }

  function Remove(s: State, k: Key): State {
    if k in s.values then State(s.values - {k}, RemoveTree(s.root, 0, k)) else s
  }

  lemma InsertCommits(s: State, k: Key, v: Bytes)
    requires Commits(s)
    ensures Commits(Insert(s, k, v))
  {
    forall q: Key ensures Lookup(Insert(s, k, v).root, 0, q) == HashAt(Insert(s, k, v).values, q) {
      InsertSpec(s.root, [], k, Value(v), q);
    }
    InsertSpec(s.root, [], k, Value(v), k);
  }

  lemma RemoveCommits(s: State, k: Key)
    requires Commits(s)
    ensures Commits(Remove(s, k))
  {
    forall q: Key ensures Lookup(Remove(s, k).root, 0, q) == HashAt(Remove(s, k).values, q) {
      RemoveSpec(s.root, [], k, q);
    }
    RemoveSpec(s.root, [], k, k);
  }

  /** Equal contents and equal roots are the same thing, whatever route led to them. */
  lemma RootDeterminesContents(s: State, t: State)
    requires Commits(s) && Commits(t)
    ensures s.root == t.root <==> s.values == t.values
  {
    if s.values == t.values {
      assert forall k: Key :: Lookup(s.root, 0, k) == HashAt(s.values, k) == Lookup(t.root, 0, k);
      CanonUnique(s.root, t.root, []);
    }
    if s.root == t.root {
      forall k: Key ensures HashAt(s.values, k) == HashAt(t.values, k) {
        assert Lookup(s.root, 0, k) == HashAt(s.values, k);
      }
      assert forall k: Key :: k in s.values <==> HashAt(s.values, k).Some?;
      assert forall k: Key :: k in t.values <==> HashAt(t.values, k).Some?;
      assert s.values.Keys == t.values.Keys;
      forall k | k in s.values ensures s.values[k] == t.values[k] {
        assert HashAt(s.values, k) == HashAt(t.values, k);
      }
    }
  }

  // ----- whole histories

  datatype Write = Put(key: Key, value: Bytes) | Erase(key: Key)

  function RunWrites(s: State, ws: seq<Write>): State
    decreases |ws|
  {
    if ws == [] then s
    else match ws[|ws| - 1]
      case Put(k, v) => Insert(RunWrites(s, ws[..|ws| - 1]), k, v)
      case Erase(k) => Remove(RunWrites(s, ws[..|ws| - 1]), k)
  }

  /** The key/value map a history leaves behind, with no trie in sight. */
  function MapAfter(ws: seq<Write>): map<Key, Bytes>
    decreases |ws|
  {
    if ws == [] then map[]
    else match ws[|ws| - 1]
      case Put(k, v) => MapAfter(ws[..|ws| - 1])[k := v]
      case Erase(k) => MapAfter(ws[..|ws| - 1]) - {k}
  }

  lemma {:induction false} RunCommits(ws: seq<Write>)
    ensures Commits(RunWrites(EmptyState, ws))
    ensures RunWrites(EmptyState, ws).values == MapAfter(ws)
    decreases |ws|
  {
    if ws != [] {
      RunCommits(ws[..|ws| - 1]);
      var s := RunWrites(EmptyState, ws[..|ws| - 1]);
      match ws[|ws| - 1]
      case Put(k, v) => InsertCommits(s, k, v);
      case Erase(k) => RemoveCommits(s, k);
    }
  }

  /** History independence: two histories publish the same root exactly when they leave the
      same key/value map, inserts, overwrites and removals in any order. */
  lemma HistoryIndependence(ws: seq<Write>, us: seq<Write>)
    ensures RunWrites(EmptyState, ws).root == RunWrites(EmptyState, us).root <==> MapAfter(ws) == MapAfter(us)
  {
    RunCommits(ws);
    RunCommits(us);
    RootDeterminesContents(RunWrites(EmptyState, ws), RunWrites(EmptyState, us));
  }
}
