/** Transaction admission and the prefix of the queue a block is cut from. */
module Mempools {
  import opened Digests
  import opened TrieTree
  import opened Records
  import opened Gas
  import opened Wire
  import opened Machine
  import opened Traces
  import opened Execution
  import opened FeeMarkets

  datatype RejectReason = Duplicate | Full | WouldNotExecute(reason: BatchError<CompileError>) | NonceQueued(nonce: nat)

  /** The state after the queue, and the root before each queued transaction. */
  datatype Tip = Tip(roots: seq<Digest>, state: State)

  /** What a pool takes from the rules of execution. */
  datatype PoolRules = PoolRules(
    admit: (BatchContext, State, State, Transaction) -> Result<State, BatchError<CompileError>>,
    hash: Transaction -> Digest, size: Transaction -> nat, price: Transaction -> nat)

  /** `tip`, with the fee market as `base` has it. */
  function WithMarketOf(crypto: Crypto, base: State, tip: State): State {
    var slot := crypto.path(FeeMarketSlot);
    var market := match Get(base, slot)
      case Some(bytes) => bytes
      case None => EncodeMarket(GenesisMarket(DEFAULT_BASE_FEE_FLOOR, DEFAULT_GAS_TARGET));
    if Get(tip, slot) == Some(market) then tip else TrieTree.Insert(tip, slot, market)
  }

  /** Executes a transaction on top of `tip`, with the fee market as `base` has it. */
  function Admit(rules: Rules, ctx: BatchContext, base: State, tip: State, t: Transaction): Result<State, BatchError<CompileError>> {
    match ExecuteBatch(rules, ctx, WithMarketOf(rules.crypto, base, tip), [t])
    case Ok(r) => Ok(r.0)
    case Err(e) => Err(e)
  }

  /** The pool of a node: admission by execution, encoded sizes, required gas. */
  function PoolOf(rules: Rules, hash: Transaction -> Digest): PoolRules {
    PoolRules((ctx: BatchContext, base: State, tip: State, t: Transaction) => Admit(rules, ctx, base, tip, t),
              hash, (t: Transaction) => |EncodeTx(t)|, PriceOf)
  }

  /** The transaction executes on `before`, in some batch over some canonical state, and leaves `after`. */
  ghost predicate Admitted(pool: PoolRules, before: State, t: Transaction, after: State) {
    exists ctx, base :: pool.admit(ctx, base, before, t) == Ok(after)
  }

  // ----- indexes

  /** The nonces of one sender's transactions, in queue order. */
  function NoncesIn(txs: seq<Transaction>, x: Bytes32): seq<nat> {
    if txs == [] then []
    else (if txs[0].sender == x then [txs[0].nonce] else []) + NoncesIn(txs[1..], x)
  }

  lemma {:induction false} NoncesSnoc(txs: seq<Transaction>, t: Transaction, x: Bytes32)
    ensures NoncesIn(txs + [t], x) == NoncesIn(txs, x) + (if t.sender == x then [t.nonce] else [])
    decreases |txs|
  {
    var all := txs + [t];
    if txs == [] {
      assert all[1..] == [] && all[0] == t;
    } else {
      assert all[1..] == txs[1..] + [t] && all[0] == txs[0];
      NoncesSnoc(txs[1..], t, x);
      var first: seq<nat> := if txs[0].sender == x then [txs[0].nonce] else [];
      assert NoncesIn(all, x) == first + NoncesIn(txs[1..] + [t], x);
    }
  }

  lemma {:induction false} NoncesCover(txs: seq<Transaction>, x: Bytes32, n: nat)
    ensures n in NoncesIn(txs, x) <==> exists t :: t in txs && t.sender == x && t.nonce == n
    decreases |txs|
  {
    if txs != [] {
      NoncesCover(txs[1..], x, n);
      assert forall t :: t in txs <==> t == txs[0] || t in txs[1..];
    }
  }

  /** No two queued transactions share a sender and nonce, or a hash. */
  ghost predicate Unclashing(hash: Transaction -> Digest, txs: seq<Transaction>) {
    && (forall i, j :: 0 <= i < j < |txs| ==> txs[i].sender != txs[j].sender || txs[i].nonce != txs[j].nonce)
    && (forall i, j :: 0 <= i < j < |txs| ==> hash(txs[i]) != hash(txs[j]))
  }

  ghost predicate HashesOf(hash: Transaction -> Digest, txs: seq<Transaction>, hashes: set<Digest>) {
    forall h :: h in hashes <==> exists t :: t in txs && hash(t) == h
  }

  ghost predicate ClaimsOf(txs: seq<Transaction>, claimed: map<Bytes32, seq<nat>>) {
    forall x :: if x in claimed then claimed[x] == NoncesIn(txs, x) && claimed[x] != [] else NoncesIn(txs, x) == []
  }

  function Claim(claimed: map<Bytes32, seq<nat>>, t: Transaction): map<Bytes32, seq<nat>> {
    claimed[t.sender := (if t.sender in claimed then claimed[t.sender] else []) + [t.nonce]]
  }

  lemma ClaimKeeps(txs: seq<Transaction>, claimed: map<Bytes32, seq<nat>>, t: Transaction)
    requires ClaimsOf(txs, claimed)
    ensures ClaimsOf(txs + [t], Claim(claimed, t))
  {
    forall x ensures NoncesIn(txs + [t], x) == NoncesIn(txs, x) + (if t.sender == x then [t.nonce] else []) {
      NoncesSnoc(txs, t, x);
    }
  }

  lemma HashKeeps(hash: Transaction -> Digest, txs: seq<Transaction>, hashes: set<Digest>, t: Transaction)
    requires HashesOf(hash, txs, hashes)
    ensures HashesOf(hash, txs + [t], hashes + {hash(t)})
  {
    assert forall u :: u in txs + [t] <==> u in txs || u == t;
  }

  function Without(s: seq<nat>, n: nat): seq<nat> {
    if s == [] then [] else (if s[0] == n then [] else [s[0]]) + Without(s[1..], n)
  }

  lemma {:induction false} WithoutAbsent(s: seq<nat>, n: nat)
    requires n !in s
    ensures Without(s, n) == s
    decreases |s|
  {
    if s != [] {
      WithoutAbsent(s[1..], n);
    }
  }

  /** Releasing the front transaction's nonce leaves the claims of the rest. */
  lemma ReleaseFront(hash: Transaction -> Digest, txs: seq<Transaction>, x: Bytes32)
    requires txs != [] && Unclashing(hash, txs)
    ensures NoncesIn(txs[1..], x) == if x == txs[0].sender then Without(NoncesIn(txs, x), txs[0].nonce) else NoncesIn(txs, x)
  {
    if x == txs[0].sender {
      NoncesCover(txs[1..], x, txs[0].nonce);
      WithoutAbsent(NoncesIn(txs[1..], x), txs[0].nonce);
      assert NoncesIn(txs, x)[1..] == NoncesIn(txs[1..], x);
    }
  }

  // ----- rebuilding the tip

  /** The queued transactions that still execute in order over `base`, and the states they leave. */
  function Rebuilt(pool: PoolRules, ctx: BatchContext, base: State, txs: seq<Transaction>): (r: (seq<Transaction>, seq<State>))
    ensures |r.1| == |r.0| + 1
    decreases |txs|
  {
    if txs == [] then ([], [base])
    else
      var (kept, trail) := Rebuilt(pool, ctx, base, txs[..|txs| - 1]);
      var t := txs[|txs| - 1];
      match pool.admit(ctx, base, trail[|trail| - 1], t)
      case Ok(next) => (kept + [t], trail + [next])
      case Err(_) => (kept, trail)
  }

  /** `kept` is `txs` with some left out, order kept. */
  ghost predicate KeptFrom(kept: seq<Transaction>, txs: seq<Transaction>)
    decreases |txs|
  {
    if txs == [] then kept == []
    else
      || KeptFrom(kept, txs[..|txs| - 1])
      || (kept != [] && kept[|kept| - 1] == txs[|txs| - 1] && KeptFrom(kept[..|kept| - 1], txs[..|txs| - 1]))
  }

  lemma {:induction false} RebuiltKept(pool: PoolRules, ctx: BatchContext, base: State, txs: seq<Transaction>)
    ensures KeptFrom(Rebuilt(pool, ctx, base, txs).0, txs)
    decreases |txs|
  {
    if txs != [] {
      RebuiltKept(pool, ctx, base, txs[..|txs| - 1]);
      var kept := Rebuilt(pool, ctx, base, txs).0;
      var front := Rebuilt(pool, ctx, base, txs[..|txs| - 1]).0;
      if kept != front {
        assert kept[..|kept| - 1] == front;
      }
    }
  }

  lemma {:induction false} KeptMember(kept: seq<Transaction>, txs: seq<Transaction>, t: Transaction)
    requires KeptFrom(kept, txs) && t in kept
    ensures t in txs
    decreases |txs|
  {
    if txs != [] {
      if KeptFrom(kept, txs[..|txs| - 1]) {
        KeptMember(kept, txs[..|txs| - 1], t);
      } else if t != kept[|kept| - 1] {
        assert t in kept[..|kept| - 1];
        KeptMember(kept[..|kept| - 1], txs[..|txs| - 1], t);
      }
    }
  }

  /** What is left of a queue without clashes has none. */
  lemma {:induction false} KeptUnclashing(hash: Transaction -> Digest, kept: seq<Transaction>, txs: seq<Transaction>)
    requires KeptFrom(kept, txs) && Unclashing(hash, txs)
    ensures Unclashing(hash, kept)
    decreases |txs|
  {
    if txs != [] {
      var front := txs[..|txs| - 1];
      if KeptFrom(kept, front) {
        KeptUnclashing(hash, kept, front);
      } else {
        var n := |kept| - 1;
        KeptUnclashing(hash, kept[..n], front);
        forall i | 0 <= i < n
          ensures (kept[i].sender != kept[n].sender || kept[i].nonce != kept[n].nonce) && hash(kept[i]) != hash(kept[n])
        {
          assert kept[..n][i] == kept[i] && kept[i] in kept[..n];
          KeptMember(kept[..n], front, kept[i]);
          var j :| 0 <= j < |front| && front[j] == kept[i];
          assert txs[j] == kept[i] && txs[|txs| - 1] == kept[n];
        }
      }
    }
  }

  // ----- sizes

  function SizeSum(size: Transaction -> nat, txs: seq<Transaction>): nat {
    if txs == [] then 0 else SizeSum(size, txs[..|txs| - 1]) + size(txs[|txs| - 1])
  }

  function AssetSum(price: Transaction -> nat, txs: seq<Transaction>, asset: nat): nat {
    if txs == [] then 0
    else AssetSum(price, txs[..|txs| - 1], asset) + (if txs[|txs| - 1].feeAsset == asset then price(txs[|txs| - 1]) else 0)
  }

  /** A prefix within every gas limit. */
  ghost predicate GasFits(price: Transaction -> nat, txs: seq<Transaction>, budget: nat, cap: nat -> nat) {
    PriceSum(price, txs) <= budget && forall a :: AssetSum(price, txs, a) <= cap(a)
  }

  ghost predicate BytesFit(size: Transaction -> nat, txs: seq<Transaction>, maxBytes: nat) {
    |txs| <= 1 || Min(SizeSum(size, txs), U64_MAX) <= maxBytes
  }

  /** `c` is the length of the longest prefix of at most `limit` that satisfies `fits`, all of
      whose own prefixes do. */
  ghost predicate Longest(txs: seq<Transaction>, limit: nat, c: nat, fits: seq<Transaction> -> bool) {
    && c <= Min(limit, |txs|)
    && (forall k :: 0 < k <= c ==> fits(txs[..k]))
    && (c < Min(limit, |txs|) ==> !fits(txs[..c + 1]))
  }

  /** Every queued transaction was admitted after everything ahead of it. */
  ghost predicate Trailed(pool: PoolRules, queued: seq<Transaction>, tip: Tip, trail: seq<State>) {
    && |tip.roots| == |trail| == |queued| + 1 && tip.state == trail[|queued|]
    && (forall i :: 0 <= i < |trail| ==> tip.roots[i] == trail[i].root)
    && (forall i :: 0 <= i < |queued| ==> Admitted(pool, trail[i], queued[i], trail[i + 1]))
  }

  lemma TrailSnoc(pool: PoolRules, queued: seq<Transaction>, tip: Tip, trail: seq<State>, ctx: BatchContext, base: State, t: Transaction, next: State)
    requires Trailed(pool, queued, tip, trail) && pool.admit(ctx, base, tip.state, t) == Ok(next)
    ensures Trailed(pool, queued + [t], Tip(tip.roots + [next.root], next), trail + [next])
  {
    assert Admitted(pool, tip.state, t, next);
  }

  lemma TrailDrop(pool: PoolRules, queued: seq<Transaction>, tip: Tip, trail: seq<State>, n: nat)
    requires Trailed(pool, queued, tip, trail) && n <= |queued|
    ensures Trailed(pool, queued[n..], tip.(roots := tip.roots[n..]), trail[n..])
  {
  }

  class Mempool {
    var queued: seq<Transaction>
    var hashes: set<Digest>
    var tip: Option<Tip>
    var claimed: map<Bytes32, seq<nat>>
    const capacity: nat
    const pool: PoolRules
    /** The states the queue was admitted through, of which `tip` keeps the roots and the last. */
    ghost var trail: seq<State>

    ghost predicate Valid()
      reads this
    {
      && Unclashing(pool.hash, queued) && HashesOf(pool.hash, queued, hashes) && ClaimsOf(queued, claimed)
      && (tip.Some? ==> Trailed(pool, queued, tip.value, trail))
    }

    predicate Current(base: State)
      reads this
    {
      tip.Some? && tip.value.roots != [] && tip.value.roots[0] == base.root && |tip.value.roots| == |queued| + 1
    }

    constructor (capacity: nat, pool: PoolRules)
      ensures Valid() && queued == [] && this.capacity == capacity && this.pool == pool
    {
      this.capacity, this.pool := capacity, pool;
      queued, hashes, tip, claimed := [], {}, None, map[];
      trail := [];
    }

    /** Rebuilds the hash and nonce indexes from the queue. */
    method Reindex()
      modifies this`hashes, this`claimed
      ensures HashesOf(pool.hash, queued, hashes) && ClaimsOf(queued, claimed)
    {
      hashes, claimed := {}, map[];
      for i := 0 to |queued|
        invariant HashesOf(pool.hash, queued[..i], hashes) && ClaimsOf(queued[..i], claimed)
      {
        assert queued[..i + 1] == queued[..i] + [queued[i]];
        HashKeeps(pool.hash, queued[..i], hashes, queued[i]);
        ClaimKeeps(queued[..i], claimed, queued[i]);
        hashes := hashes + {pool.hash(queued[i])};
        claimed := Claim(claimed, queued[i]);
      }
      assert queued[..|queued|] == queued;
    }

    /** Makes the tip current over `base`, dropping what no longer executes there. */
    method TipOver(base: State, ctx: BatchContext)
      requires Valid()
      modifies this`queued, this`hashes, this`tip, this`claimed, this`trail
      ensures Valid() && Current(base)
      ensures old(Current(base)) ==> queued == old(queued) && tip == old(tip) && trail == old(trail)
      ensures !old(Current(base)) ==> (queued, trail) == Rebuilt(pool, ctx, base, old(queued))
      ensures KeptFrom(queued, old(queued))
    {
      if Current(base) {
        KeptWhole(queued);
        return;
      }
      var roots, state := [base.root], base;
      var kept: seq<Transaction> := [];
      ghost var through := [base];
      for i := 0 to |queued|
        invariant queued == old(queued)
        invariant (kept, through) == Rebuilt(pool, ctx, base, queued[..i])
        invariant Trailed(pool, kept, Tip(roots, state), through) && roots[0] == base.root
      {
        assert queued[..i + 1][..i] == queued[..i];
        var next := pool.admit(ctx, base, state, queued[i]);
        if next.Ok? {
          TrailSnoc(pool, kept, Tip(roots, state), through, ctx, base, queued[i], next.value);
          roots, state := roots + [next.value.root], next.value;
          kept := kept + [queued[i]];
          through := through + [next.value];
        }
      }
      assert queued[..|queued|] == queued;
      RebuiltKept(pool, ctx, base, queued);
      KeptUnclashing(pool.hash, kept, queued);
      queued := kept;
      tip, trail := Some(Tip(roots, state)), through;
      Reindex();
    }

    /** Admits a transaction that executes, over `base`, after everything still queued. */
    method Submit(base: State, ctx: BatchContext, t: Transaction) returns (r: Result<Digest, RejectReason>)
      requires Valid()
      modifies this`queued, this`hashes, this`tip, this`claimed, this`trail
      ensures Valid()
      ensures |old(queued)| >= capacity ==> r == Err(Full) && queued == old(queued)
      ensures |old(queued)| < capacity && (exists u :: u in old(queued) && pool.hash(u) == pool.hash(t)) ==> r == Err(Duplicate) && queued == old(queued)
      ensures |old(queued)| < capacity && !(exists u :: u in old(queued) && pool.hash(u) == pool.hash(t)) &&
              (exists u :: u in old(queued) && u.sender == t.sender && u.nonce == t.nonce) ==>
                r == Err(NonceQueued(t.nonce)) && queued == old(queued)
      ensures r.Ok? ==> r.value == pool.hash(t) && Current(base) && queued != [] && queued[|queued| - 1] == t
      ensures r.Ok? ==> KeptFrom(queued[..|queued| - 1], old(queued)) && pool.admit(ctx, base, trail[|queued| - 1], t) == Ok(trail[|queued|])
      ensures r.Ok? && old(Current(base)) ==> queued == old(queued) + [t] && trail[..|queued|] == old(trail)
      ensures r.Err? ==> KeptFrom(queued, old(queued))
    {
      KeptWhole(queued);
      if |queued| >= capacity {
        return Err(Full);
      }
      var h := pool.hash(t);
      if h in hashes {
        return Err(Duplicate);
      }
      if t.sender in claimed && t.nonce in claimed[t.sender] {
        return Err(NonceQueued(t.nonce));
      }
      Unclaimed(queued, claimed, t);
      r := AdmitLast(base, ctx, t);
    }

    /** Executes a newcomer after everything still queued over `base`, and queues it if it succeeds. */
    method AdmitLast(base: State, ctx: BatchContext, t: Transaction) returns (r: Result<Digest, RejectReason>)
      requires Valid()
      requires forall u :: u in queued ==> pool.hash(u) != pool.hash(t) && (u.sender != t.sender || u.nonce != t.nonce)
      modifies this`queued, this`hashes, this`tip, this`claimed, this`trail
      ensures Valid()
      ensures r.Ok? ==> r.value == pool.hash(t) && Current(base) && queued != [] && queued[|queued| - 1] == t
      ensures r.Ok? ==> KeptFrom(queued[..|queued| - 1], old(queued)) && pool.admit(ctx, base, trail[|queued| - 1], t) == Ok(trail[|queued|])
      ensures r.Ok? && old(Current(base)) ==> queued == old(queued) + [t] && trail[..|queued|] == old(trail)
      ensures r.Err? ==> r.error.WouldNotExecute? && KeptFrom(queued, old(queued))
    {
      ghost var before := queued;
      TipOver(base, ctx);
      ghost var kept, last := queued, trail[|queued|];
      var next := pool.admit(ctx, base, tip.value.state, t);
      if next.Err? {
        return Err(WouldNotExecute(next.error));
      }
      StillUnclashing(pool.hash, before, queued, t);
      Enqueue(base, ctx, t, next.value);
      assert queued[..|queued| - 1] == kept;
      return Ok(pool.hash(t));
    }

    method Enqueue(ghost base: State, ghost ctx: BatchContext, t: Transaction, next: State)
      requires Valid() && tip.Some? && pool.admit(ctx, base, tip.value.state, t) == Ok(next) && Unclashing(pool.hash, queued + [t])
      modifies this`queued, this`hashes, this`tip, this`claimed, this`trail
      ensures Valid() && queued == old(queued) + [t] && trail == old(trail) + [next]
      ensures tip == Some(Tip(old(tip).value.roots + [next.root], next))
    {
      TrailSnoc(pool, queued, tip.value, trail, ctx, base, t, next);
      HashKeeps(pool.hash, queued, hashes, t);
      ClaimKeeps(queued, claimed, t);
      tip := Some(Tip(tip.value.roots + [next.root], next));
      trail := trail + [next];
      hashes := hashes + {pool.hash(t)};
      claimed := Claim(claimed, t);
      queued := queued + [t];
    }

    /** Removes and returns the longest prefix of at most `limit` transactions and `maxBytes` bytes;
        a first transaction is taken whatever its size. */
    method TakeWithin(limit: nat, maxBytes: nat) returns (taken: seq<Transaction>)
      requires Valid()
      modifies this`queued, this`hashes, this`tip, this`claimed, this`trail
      ensures Valid() && taken + queued == old(queued)
      ensures Longest(old(queued), limit, |taken|, p => BytesFit(pool.size, p, maxBytes))
      ensures taken != [] <==> limit > 0 && old(queued) != []
    {
      var count := CountWithin(limit, maxBytes);
      taken := queued[..count];
      Release(count);
    }

    method CountWithin(limit: nat, maxBytes: nat) returns (count: nat)
      ensures Longest(queued, limit, count, p => BytesFit(pool.size, p, maxBytes))
      ensures count > 0 <==> limit > 0 && queued != []
    {
      count := 0;
      var size := 0;
      var most := Min(limit, |queued|);
      while count < most
        invariant count <= most && size == Min(SizeSum(pool.size, queued[..count]), U64_MAX)
        invariant forall k :: 0 < k <= count ==> BytesFit(pool.size, queued[..k], maxBytes)
      {
        assert queued[..count + 1][..count] == queued[..count];
        size := SaturatingAdd(size, pool.size(queued[count]));
        if count > 0 && size > maxBytes {
          break;
        }
        count := count + 1;
      }
      ghost var fits := (p: seq<Transaction>) => BytesFit(pool.size, p, maxBytes);
      assert Longest(queued, limit, count, fits);
    }

    /** Drops the first `count` transactions from the queue and every index. */
    method Release(count: nat)
      requires Valid() && count <= |queued|
      modifies this`queued, this`hashes, this`tip, this`claimed, this`trail
      ensures Valid() && queued == old(queued)[count..]
    {
      var i := 0;
      while i < count
        invariant i <= count <= |old(queued)| && queued == old(queued)[i..] && Valid()
      {
        ReleaseOne();
        i := i + 1;
      }
    }

    method ReleaseOne()
      requires Valid() && queued != []
      modifies this`queued, this`hashes, this`tip, this`claimed, this`trail
      ensures Valid() && queued == old(queued)[1..]
    {
      var t := queued[0];
      ReleaseIndexes(pool.hash, queued, hashes, claimed);
      hashes := hashes - {pool.hash(t)};
      claimed := Unclaim(claimed, t);
      if tip.Some? {
        TrailDrop(pool, queued, tip.value, trail, 1);
        tip := Some(tip.value.(roots := tip.value.roots[1..]));
        trail := trail[1..];
      }
      queued := queued[1..];
    }

    /** Removes and returns a prefix within the gas budget and every asset's cap, and then within
        the byte limit. */
    method TakeFitting(limit: nat, maxBytes: nat, budget: nat, cap: nat -> nat) returns (taken: seq<Transaction>, ghost fitting: nat)
      requires Valid()
      modifies this`queued, this`hashes, this`tip, this`claimed, this`trail
      ensures Valid() && taken + queued == old(queued) && |taken| <= fitting
      ensures Longest(old(queued), limit, fitting, p => GasFits(pool.price, p, budget, cap))
      ensures Longest(old(queued), fitting, |taken|, p => BytesFit(pool.size, p, maxBytes))
    {
      var count := FittingPrefix(limit, budget, cap);
      fitting := count;
      taken := TakeWithin(count, maxBytes);
    }

    method FittingPrefix(limit: nat, budget: nat, cap: nat -> nat) returns (fitting: nat)
      ensures Longest(queued, limit, fitting, p => GasFits(pool.price, p, budget, cap))
    {
      var gas: nat := 0;
      var perAsset: map<nat, nat> := map[];
      fitting := 0;
      var most := Min(limit, |queued|);
      EmptyTallied(pool.price, queued, budget, cap);
      while fitting < most
        invariant fitting <= most && Tallied(pool.price, queued, fitting, gas, perAsset, budget, cap)
      {
        var t := queued[fitting];
        var need := pool.price(t);
        var assetGas := if t.feeAsset in perAsset then perAsset[t.feeAsset] else 0;
        TallyStep(pool.price, queued, fitting, gas, perAsset, budget, cap);
        if gas + need > budget || assetGas + need > cap(t.feeAsset) {
          break;
        }
        gas := gas + need;
        perAsset := perAsset[t.feeAsset := assetGas + need];
        fitting := fitting + 1;
      }
      ghost var fits := (p: seq<Transaction>) => GasFits(pool.price, p, budget, cap);
      assert Longest(queued, limit, fitting, fits);
    }

    method Clear()
      modifies this`queued, this`hashes, this`tip, this`claimed, this`trail
      ensures Valid() && queued == [] && tip == None
    {
      queued, hashes, tip, claimed, trail := [], {}, None, map[], [];
    }
  }

  function Spent(perAsset: map<nat, nat>, a: nat): nat {
    if a in perAsset then perAsset[a] else 0
  }

  /** The running totals over the first `n` transactions, all of whose prefixes fit. */
  ghost predicate Tallied(price: Transaction -> nat, txs: seq<Transaction>, n: nat, gas: nat, perAsset: map<nat, nat>,
                          budget: nat, cap: nat -> nat)
    requires n <= |txs|
  {
    && gas == PriceSum(price, txs[..n])
    && (forall a :: Spent(perAsset, a) == AssetSum(price, txs[..n], a))
    && (forall k :: 0 < k <= n ==> GasFits(price, txs[..k], budget, cap))
  }

  lemma EmptyTallied(price: Transaction -> nat, txs: seq<Transaction>, budget: nat, cap: nat -> nat)
    ensures Tallied(price, txs, 0, 0, map[], budget, cap)
  {
  }

  /** The next transaction fits exactly when the two totals it moves do. */
  lemma TallyStep(price: Transaction -> nat, txs: seq<Transaction>, n: nat, gas: nat, perAsset: map<nat, nat>,
                  budget: nat, cap: nat -> nat)
    requires n < |txs| && Tallied(price, txs, n, gas, perAsset, budget, cap)
    ensures var a, need := txs[n].feeAsset, price(txs[n]);
            if gas + need <= budget && Spent(perAsset, a) + need <= cap(a) then
              Tallied(price, txs, n + 1, gas + need, perAsset[a := Spent(perAsset, a) + need], budget, cap)
            else !GasFits(price, txs[..n + 1], budget, cap)
  {
    var p, q := txs[..n], txs[..n + 1];
    var a, need := txs[n].feeAsset, price(txs[n]);
    assert q[..n] == p && q[n] == txs[n];
    assert PriceSum(price, q) == gas + need;
    forall b ensures AssetSum(price, q, b) == Spent(perAsset, b) + (if b == a then need else 0) {
      assert AssetSum(price, p, b) == Spent(perAsset, b);
    }
    if gas + need <= budget && Spent(perAsset, a) + need <= cap(a) {
      forall b ensures AssetSum(price, q, b) <= cap(b) {
        if b != a {
          OtherAssetFits(price, txs, n, gas, perAsset, budget, cap, b);
        }
      }
    }
  }

  lemma OtherAssetFits(price: Transaction -> nat, txs: seq<Transaction>, n: nat, gas: nat, perAsset: map<nat, nat>,
                       budget: nat, cap: nat -> nat, b: nat)
    requires n <= |txs| && Tallied(price, txs, n, gas, perAsset, budget, cap)
    ensures AssetSum(price, txs[..n], b) <= cap(b)
  {
    if n > 0 {
      assert GasFits(price, txs[..n], budget, cap);
    }
  }

  lemma {:induction false} KeptWhole(txs: seq<Transaction>)
    ensures KeptFrom(txs, txs)
    decreases |txs|
  {
    if txs != [] {
      KeptWhole(txs[..|txs| - 1]);
    }
  }

  lemma Unclaimed(txs: seq<Transaction>, claimed: map<Bytes32, seq<nat>>, t: Transaction)
    requires ClaimsOf(txs, claimed) && !(t.sender in claimed && t.nonce in claimed[t.sender])
    ensures forall u :: u in txs ==> u.sender != t.sender || u.nonce != t.nonce
  {
    NoncesCover(txs, t.sender, t.nonce);
  }

  /** A newcomer that clashes with nothing queued clashes with nothing kept. */
  lemma StillUnclashing(hash: Transaction -> Digest, before: seq<Transaction>, kept: seq<Transaction>, t: Transaction)
    requires KeptFrom(kept, before) && Unclashing(hash, kept)
    requires forall u :: u in before ==> hash(u) != hash(t) && (u.sender != t.sender || u.nonce != t.nonce)
    ensures Unclashing(hash, kept + [t])
  {
    forall i | 0 <= i < |kept| ensures kept[i] in before {
      KeptMember(kept, before, kept[i]);
    }
  }

  function Unclaim(claimed: map<Bytes32, seq<nat>>, t: Transaction): map<Bytes32, seq<nat>> {
    if t.sender !in claimed then claimed
    else
      var left := Without(claimed[t.sender], t.nonce);
      if left == [] then claimed - {t.sender} else claimed[t.sender := left]
  }

  lemma ReleaseIndexes(hash: Transaction -> Digest, txs: seq<Transaction>, hashes: set<Digest>, claimed: map<Bytes32, seq<nat>>)
    requires txs != [] && Unclashing(hash, txs) && HashesOf(hash, txs, hashes) && ClaimsOf(txs, claimed)
    ensures Unclashing(hash, txs[1..]) && HashesOf(hash, txs[1..], hashes - {hash(txs[0])}) && ClaimsOf(txs[1..], Unclaim(claimed, txs[0]))
  {
    ReleaseHash(hash, txs, hashes);
    ReleaseClaims(hash, txs, claimed);
    forall i, j | 0 <= i < j < |txs[1..]| ensures txs[1..][i] == txs[i + 1] && txs[1..][j] == txs[j + 1] {
    }
  }

  lemma ReleaseHash(hash: Transaction -> Digest, txs: seq<Transaction>, hashes: set<Digest>)
    requires txs != [] && Unclashing(hash, txs) && HashesOf(hash, txs, hashes)
    ensures HashesOf(hash, txs[1..], hashes - {hash(txs[0])})
  {
    assert forall t :: t in txs <==> t == txs[0] || t in txs[1..];
    forall t | t in txs[1..] ensures hash(t) != hash(txs[0]) {
      var j :| 0 <= j < |txs[1..]| && txs[1..][j] == t;
      assert txs[j + 1] == t;
    }
  }

  lemma ReleaseClaims(hash: Transaction -> Digest, txs: seq<Transaction>, claimed: map<Bytes32, seq<nat>>)
    requires txs != [] && Unclashing(hash, txs) && ClaimsOf(txs, claimed)
    ensures ClaimsOf(txs[1..], Unclaim(claimed, txs[0]))
  {
    forall x ensures NoncesIn(txs[1..], x) == if x == txs[0].sender then Without(NoncesIn(txs, x), txs[0].nonce) else NoncesIn(txs, x) {
      ReleaseFront(hash, txs, x);
    }
  }
}
