/** The Merkle tree over a batch's transactions, from which L1 recovers one instruction. */
module BatchTrees {
  import opened Digests
  import opened Arith
  import opened Wire
  import opened Traces
  import opened TrieTree

  /** Where a transaction's instructions begin, and its bytes. */
  type Entry = (nat, Bytes)

  datatype LeafProof = LeafProof(index: nat, siblings: seq<Digest>)

  /** Levels from the padded leaves up to the root. */
  datatype BatchTree = BatchTree(levels: seq<seq<Digest>>, txCount: nat)

  function Leaf(i: nat, e: Entry): Digest {
    BatchLeaf(i, e.0, e.1)
  }

  /** Each level is half the one below it and hashes its pairs; the last is the root alone. */
  ghost predicate Layered(levels: seq<seq<Digest>>) {
    && levels != [] && (forall k :: 0 <= k < |levels| - 1 ==> Above(levels[k], levels[k + 1]))
  }

  ghost predicate Above(below: seq<Digest>, above: seq<Digest>) {
    && |below| == 2 * |above|
    && forall j :: 0 <= j < |above| ==> above[j] == BatchNode(below[2 * j], below[2 * j + 1])
  }

  /** The leaves in order, then padding. */
  ghost predicate Base(level: seq<Digest>, entries: seq<Entry>) {
    && |entries| <= |level|
    && (forall i :: 0 <= i < |entries| ==> level[i] == Leaf(i, entries[i]))
    && (forall i :: |entries| <= i < |level| ==> level[i] == Zero)
  }

  /** The tree a batch commits to. */
  ghost predicate Covers(t: BatchTree, entries: seq<Entry>) {
    && Layered(t.levels) && Base(t.levels[0], entries) && t.txCount == |entries|
    && |t.levels[|t.levels| - 1]| == 1
  }

  function Root(t: BatchTree): Digest
    requires t.levels != [] && t.levels[|t.levels| - 1] != []
  {
    t.levels[|t.levels| - 1][0]
  }

  // ----- building

  /** The least power of two that is at least `n`. */
  method NextPowerOfTwo(n: nat) returns (w: nat, ghost e: nat)
    ensures n <= w == Power(2, e) && (w == 1 || w < 2 * n)
  {
    w, e := 1, 0;
    while w < n
      invariant w == Power(2, e) && (w == 1 || w < 2 * n)
    {
      w, e := 2 * w, e + 1;
    }
  }

  method HashPairs(below: seq<Digest>) returns (above: seq<Digest>)
    requires |below| % 2 == 0
    ensures Above(below, above)
  {
    above := [];
    for j := 0 to |below| / 2
      invariant |above| == j
      invariant forall i :: 0 <= i < j ==> above[i] == BatchNode(below[2 * i], below[2 * i + 1])
    {
      above := above + [BatchNode(below[2 * j], below[2 * j + 1])];
    }
  }

  method Build(entries: seq<Entry>) returns (t: BatchTree)
    ensures Covers(t, entries)
    ensures |t.levels[0]| == 1 || |t.levels[0]| < 2 * |entries|
  {
    var level: seq<Digest> := [];
    for i := 0 to |entries|
      invariant |level| == i && forall j :: 0 <= j < i ==> level[j] == Leaf(j, entries[j])
    {
      level := level + [BatchLeaf(i, entries[i].0, entries[i].1)];
    }
    var width, e := NextPowerOfTwo(Max(|level|, 1));
    level := level + seq(width - |level|, _ => Zero);
    var levels := [level];
    while |level| > 1
      invariant Layered(levels) && level == levels[|levels| - 1]
      invariant |level| == Power(2, e) && Base(levels[0], entries) && |levels[0]| == width
      decreases e
    {
      level := HashPairs(level);
      levels := levels + [level];
      e := e - 1;
    }
    t := BatchTree(levels, |entries|);
  }

  // ----- paths

  /** A position's ancestor `k` levels up. */
  function Up(i: nat, k: nat): nat {
    if k == 0 then i else Up(i, k - 1) / 2
  }

  function Beside(i: nat): nat {
    if i % 2 == 0 then i + 1 else i - 1
  }

  function Join(even: bool, node: Digest, sibling: Digest): Digest {
    if even then BatchNode(node, sibling) else BatchNode(sibling, node)
  }

  /** The root a path implies for a leaf. */
  function RootFor(p: LeafProof, leaf: Digest): Digest
    decreases |p.siblings|
  {
    if p.siblings == [] then leaf
    else
      var n := |p.siblings| - 1;
      Join(Up(p.index, n) % 2 == 0, RootFor(p.(siblings := p.siblings[..n]), leaf), p.siblings[n])
  }

  method ComputeRootFor(p: LeafProof, leaf: Digest) returns (node: Digest)
    ensures node == RootFor(p, leaf)
  {
    node := leaf;
    var index := p.index;
    for k := 0 to |p.siblings|
      invariant index == Up(p.index, k) && node == RootFor(p.(siblings := p.siblings[..k]), leaf)
    {
      assert p.siblings[..k + 1][..k] == p.siblings[..k];
      node := if index % 2 == 0 then BatchNode(node, p.siblings[k]) else BatchNode(p.siblings[k], node);
      index := index / 2;
    }
    assert p.siblings[..|p.siblings|] == p.siblings;
  }

  /** The path of a leaf, refused past the last transaction, recomputes the root. */
  method Prove(t: BatchTree, index: nat, ghost entries: seq<Entry>) returns (p: Option<LeafProof>)
    requires Covers(t, entries)
    ensures p.None? <==> index >= |entries|
    ensures p.Some? ==> p.value.index == index && RootFor(p.value, Leaf(index, entries[index])) == Root(t)
  {
    if index >= t.txCount {
      return None;
    }
    var i, siblings := index, [];
    ghost var leaf := Leaf(index, entries[index]);
    for k := 0 to |t.levels| - 1
      invariant i == Up(index, k) && |siblings| == k && i < |t.levels[k]|
      invariant RootFor(LeafProof(index, siblings), leaf) == t.levels[k][i]
    {
      assert Above(t.levels[k], t.levels[k + 1]);
      var sibling := t.levels[k][Beside(i)];
      assert (siblings + [sibling])[..k] == siblings;
      siblings := siblings + [sibling];
      i := i / 2;
    }
    return Some(LeafProof(index, siblings));
  }

  // ----- what the root binds

  /** Whatever a path claims sits below a node of the tree is one of its leaves. */
  lemma {:induction false} PathEndsInLeaf(levels: seq<seq<Digest>>, k: nat, j: nat, p: LeafProof, leaf: Digest)
    requires Layered(levels) && k < |levels| && j < |levels[k]| && RootFor(p, leaf) == levels[k][j]
    requires !leaf.BatchNode? && forall i :: 0 <= i < |levels[0]| ==> !levels[0][i].BatchNode?
    ensures leaf in levels[0]
    decreases k
  {
    if k > 0 {
      assert Above(levels[k - 1], levels[k]);
      var n := |p.siblings| - 1;
      var inner := p.(siblings := p.siblings[..n]);
      PathEndsInLeaf(levels, k - 1, if Up(p.index, n) % 2 == 0 then 2 * j else 2 * j + 1, inner, leaf);
    }
  }

  /** The commitment binds position and content: a path of any length and any claimed position that
      takes a transaction's leaf to the root is possible only for the transaction really there. */
  lemma RootBindsLeaf(t: BatchTree, entries: seq<Entry>, p: LeafProof, i: nat, e: Entry)
    requires Covers(t, entries) && RootFor(p, Leaf(i, e)) == Root(t)
    ensures i < |entries| && entries[i] == e
  {
    PathEndsInLeaf(t.levels, |t.levels| - 1, 0, p, Leaf(i, e));
    var j :| 0 <= j < |t.levels[0]| && t.levels[0][j] == Leaf(i, e);
  }

  /** Every leaf has a path to the root. */
  lemma {:induction false} PathTo(levels: seq<seq<Digest>>, i: nat, k: nat) returns (siblings: seq<Digest>)
    requires Layered(levels) && i < |levels[0]| && k < |levels|
    ensures Up(i, k) < |levels[k]| && |siblings| == k && RootFor(LeafProof(i, siblings), levels[0][i]) == levels[k][Up(i, k)]
  {
    if k == 0 {
      siblings := [];
    } else {
      var below := PathTo(levels, i, k - 1);
      assert Above(levels[k - 1], levels[k]);
      siblings := below + [levels[k - 1][Beside(Up(i, k - 1))]];
      assert siblings[..k - 1] == below;
    }
  }

  lemma LeafElsewhere(t: BatchTree, entries: seq<Entry>, u: BatchTree, others: seq<Entry>, i: nat)
    requires Covers(t, entries) && Covers(u, others) && Root(t) == Root(u) && i < |entries|
    ensures i < |others| && entries[i] == others[i]
  {
    var siblings := PathTo(t.levels, i, |t.levels| - 1);
    RootBindsLeaf(u, others, LeafProof(i, siblings), i, entries[i]);
  }

  /** Two batches with the same root are the same batch. */
  lemma RootBindsBatch(t: BatchTree, entries: seq<Entry>, u: BatchTree, others: seq<Entry>)
    requires Covers(t, entries) && Covers(u, others) && Root(t) == Root(u)
    ensures entries == others
  {
    if entries != [] {
      LeafElsewhere(t, entries, u, others, |entries| - 1);
    }
    if others != [] {
      LeafElsewhere(u, others, t, entries, |others| - 1);
    }
    forall i | 0 <= i < |entries| ensures entries[i] == others[i] {
      LeafElsewhere(t, entries, u, others, i);
    }
  }

  // ----- the instruction L1 recovers

  /** A transaction's bytes, and how they are read back. */
  datatype TxCodec = TxCodec(encode: Transaction -> Bytes, decode: Bytes -> Result<Transaction, WireError>)

  /** What the sequencer commits to for an executed batch. */
  ghost predicate Publishes(codec: TxCodec, entries: seq<Entry>, txs: seq<Transaction>, starts: seq<nat>) {
    |entries| == |txs| == |starts| && forall i :: 0 <= i < |txs| ==> entries[i] == (starts[i], codec.encode(txs[i]))
  }

  ghost predicate ReadsBack(codec: TxCodec, txs: seq<Transaction>) {
    forall j :: 0 <= j < |txs| ==> codec.decode(codec.encode(txs[j])) == Ok(txs[j])
  }

  /** The wire format reads back every batch of transactions within its limits. */
  lemma WireReadsBack(txs: seq<Transaction>)
    requires forall j :: 0 <= j < |txs| ==> TxFits(txs[j])
    ensures ReadsBack(WireCodec(), txs)
  {
    forall j | 0 <= j < |txs| ensures DecodeTx(EncodeTx(txs[j])) == Ok(txs[j]) {
      WireRoundTrip(txs[j]);
    }
  }

  /** Where a transaction starts, the trace has its instructions. */
  lemma InstructionsFrom<E>(compile: Compiler<E>, step: Step, pre: State, txs: seq<Transaction>, i: nat)
    requires RunBatch(compile, step, pre, txs).Ok? && i < |txs|
    ensures var tr := RunBatch(compile, step, pre, txs).value.1;
            && |tr.txStarts| == |txs| && compile(txs[i]).Ok?
            && tr.txStarts[i] + |compile(txs[i]).value| <= |tr.instructions|
            && forall pc :: tr.txStarts[i] <= pc < tr.txStarts[i] + |compile(txs[i]).value| ==>
                 tr.instructions[pc] == compile(txs[i]).value[pc - tr.txStarts[i]]
  {
    BatchIsHonest(compile, step, pre, txs);
    var tr := RunBatch(compile, step, pre, txs).value.1;
    var start := tr.txStarts[i];
    assert StartsAt(compile, txs, i, start);
    TransactionInProgram(compile, txs, i);
    SliceEntries(tr.instructions, start, compile(txs[i]).value);
  }

  lemma SliceEntries<T>(s: seq<T>, start: nat, part: seq<T>)
    requires start + |part| <= |s| && s[start..start + |part|] == part
    ensures forall pc :: start <= pc < start + |part| ==> s[pc] == part[pc - start]
  {
    forall pc | start <= pc < start + |part| ensures s[pc] == part[pc - start] {
      assert s[start..start + |part|][pc - start] == s[pc];
    }
  }

  /** From one proven leaf of an executed batch, L1 decodes the transaction, compiles it and indexes
      by the distance from its start; what it gets is the instruction the trace has there. */
  lemma LeafYieldsInstruction<E>(codec: TxCodec, compile: Compiler<E>, step: Step, pre: State, txs: seq<Transaction>,
                                 t: BatchTree, entries: seq<Entry>, p: LeafProof, i: nat, e: Entry)
    requires RunBatch(compile, step, pre, txs).Ok? && ReadsBack(codec, txs)
    requires Publishes(codec, entries, txs, RunBatch(compile, step, pre, txs).value.1.txStarts)
    requires Covers(t, entries) && RootFor(p, Leaf(i, e)) == Root(t)
    ensures codec.decode(e.1).Ok?
    ensures var tr := RunBatch(compile, step, pre, txs).value.1;
            var compiled := compile(codec.decode(e.1).value);
            && compiled.Ok? && e.0 + |compiled.value| <= |tr.instructions|
            && forall pc :: e.0 <= pc < e.0 + |compiled.value| ==> tr.instructions[pc] == compiled.value[pc - e.0]
  {
    RootBindsLeaf(t, entries, p, i, e);
    InstructionsFrom(compile, step, pre, txs, i);
  }

  /** The codec batches are published in. */
  function WireCodec(): TxCodec {
    TxCodec(EncodeTx, DecodeTx)
  }

  /** The same, of the wire format, for every batch of transactions within its limits. */
  lemma WireLeafYieldsInstruction<E>(compile: Compiler<E>, step: Step, pre: State, txs: seq<Transaction>,
                                     t: BatchTree, entries: seq<Entry>, p: LeafProof, i: nat, e: Entry)
    requires RunBatch(compile, step, pre, txs).Ok? && forall j :: 0 <= j < |txs| ==> TxFits(txs[j])
    requires Publishes(WireCodec(), entries, txs, RunBatch(compile, step, pre, txs).value.1.txStarts)
    requires Covers(t, entries) && RootFor(p, Leaf(i, e)) == Root(t)
    ensures WireCodec().decode(e.1).Ok?
    ensures var tr := RunBatch(compile, step, pre, txs).value.1;
            var compiled := compile(WireCodec().decode(e.1).value);
            && compiled.Ok? && e.0 + |compiled.value| <= |tr.instructions|
            && forall pc :: e.0 <= pc < e.0 + |compiled.value| ==> tr.instructions[pc] == compiled.value[pc - e.0]
  {
    WireReadsBack(txs);
    LeafYieldsInstruction(WireCodec(), compile, step, pre, txs, t, entries, p, i, e);
  }
}
