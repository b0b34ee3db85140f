/** The records state slots hold, and their one byte encoding each. */
module Records {
  import opened Digests
  import opened Codec

  type Bytes32 = b: Bytes | |b| == 32 witness seq(32, _ => 0)

  type Bytes64 = b: Bytes | |b| == 64 witness seq(64, _ => 0)
  type Bytes128 = b: Bytes | |b| == 128 witness seq(128, _ => 0)

  /** Decoding is whole: trailing input is refused. */
  function Whole<T>(r: Read<T>): Option<T> {
    match r
    case Got(v, rest) => if rest == [] then Some(v) else None
    case Bad(_) => None
  }

  // ----- accounts

  /** Balances by asset; an asset with a zero balance is absent. */
  datatype Account = Account(nonce: nat, balances: map<nat, nat>)

  const EmptyAccount := Account(0, map[])

  /** What every account built by `Credit` and `Debit` satisfies. */
  ghost predicate Pruned(a: Account) {
    && a.nonce <= U64_MAX
    && |a.balances| <= U32_MAX
    && forall k :: k in a.balances ==> k <= U32_MAX && 0 < a.balances[k] <= U128_MAX
  }

  datatype BalanceError = Insufficient(held: nat, required: nat) | Overflow | Malformed

  function Balance(a: Account, asset: nat): nat {
    if asset in a.balances then a.balances[asset] else 0
  }

  function CreditAccount(a: Account, asset: nat, amount: nat): Result<Account, BalanceError> {
    if amount == 0 then Ok(a)
    else if Balance(a, asset) + amount > U128_MAX then Err(Overflow)
    else Ok(a.(balances := a.balances[asset := Balance(a, asset) + amount]))
  }

  function DebitAccount(a: Account, asset: nat, amount: nat): Result<Account, BalanceError> {
    if amount == 0 then Ok(a)
    else if Balance(a, asset) < amount then Err(Insufficient(Balance(a, asset), amount))
    else if Balance(a, asset) == amount then Ok(a.(balances := a.balances - {asset}))
    else Ok(a.(balances := a.balances[asset := Balance(a, asset) - amount]))
  }

  /** A credit moves one balance up by the amount and no other, or fails and mints nothing;
      a debit likewise down; and spent to zero is never-held. */
  lemma CreditDebitExact(a: Account, asset: nat, amount: nat, other: nat)
    requires Pruned(a) && asset <= U32_MAX
    ensures var c := CreditAccount(a, asset, amount);
            && (c.Ok? <==> Balance(a, asset) + amount <= U128_MAX)
            && (c.Ok? ==> && c.value.nonce == a.nonce
                          && Balance(c.value, other) == Balance(a, other) + (if other == asset then amount else 0)
                          && DebitAccount(c.value, asset, amount) == Ok(a))
    ensures var d := DebitAccount(a, asset, amount);
            && (d.Ok? <==> amount <= Balance(a, asset))
            && (d.Ok? ==> && d.value.nonce == a.nonce
                          && Balance(d.value, other) == Balance(a, other) - (if other == asset then amount else 0)
                          && Pruned(d.value)
                          && CreditAccount(d.value, asset, amount) == Ok(a))
  {
    if 0 < amount <= Balance(a, asset) {
      var d := DebitAccount(a, asset, amount).value;
      assert d.balances.Keys <= a.balances.Keys;
      SubsetSize(d.balances.Keys, a.balances.Keys);
      assert d.balances[asset := Balance(a, asset)] == a.balances;
    }
    if amount > 0 && Balance(a, asset) + amount <= U128_MAX {
      var c := CreditAccount(a, asset, amount).value;
      if asset in a.balances {
        assert c.balances[asset := a.balances[asset]] == a.balances;
      } else {
        assert c.balances - {asset} == a.balances;
      }
    }
  }

  lemma {:induction false} SubsetSize<T>(a: set<T>, b: set<T>)
    requires a <= b
    ensures |a| <= |b|
  {
    if a != {} {
      var x :| x in a;
      SubsetSize(a - {x}, b - {x});
    }
  }

  lemma CreditPruned(a: Account, asset: nat, amount: nat)
    requires Pruned(a) && asset <= U32_MAX && CreditAccount(a, asset, amount).Ok?
    requires |CreditAccount(a, asset, amount).value.balances| <= U32_MAX
    ensures Pruned(CreditAccount(a, asset, amount).value)
  {
  }

  // Assets are written in increasing order.

  lemma {:induction false} FindMin(s: set<nat>) returns (m: nat)
    requires s != {}
    ensures m in s && forall x :: x in s ==> m <= x
    decreases s
  {
    m :| m in s;
    if s != {m} {
      var n := FindMin(s - {m});
      assert forall x :: x in s ==> x == m || x in s - {m};
      m := if n < m then n else m;
    }
  }

  lemma MinExists(s: set<nat>)
    requires s != {}
    ensures exists m :: m in s && forall x :: x in s ==> m <= x
  {
    var m := FindMin(s);
  }

  function MinOf(s: set<nat>): (m: nat)
    requires s != {}
    ensures m in s && forall x :: x in s ==> m <= x
  {
    MinExists(s);
    var m :| m in s && forall x :: x in s ==> m <= x;
    m
  }

  function Sorted(s: set<nat>): (r: seq<nat>)
    ensures |r| == |s|
    ensures forall x :: x in r <==> x in s
  {
    if s == {} then [] else [MinOf(s)] + Sorted(s - {MinOf(s)})
  }

  function PutEntries(m: map<nat, nat>, keys: seq<nat>, rest: Bytes): Bytes
    requires forall k :: k in keys ==> k in m
    decreases |keys|
  {
    if keys == [] then rest
    else PutInt(keys[0], 4, PutInt(m[keys[0]], 16, PutEntries(m, keys[1..], rest)))
  }

  /** Strictly increasing asset ids, no zero balances. */
  function ReadEntries(s: Bytes, count: nat, prev: int): Read<map<nat, nat>>
    decreases count
  {
    if count == 0 then Got(map[], s)
    else
      var (asset, s1) :- ReadInt(s, 4);
      var (amount, s2) :- ReadInt(s1, 16);
      if asset <= prev || amount == 0 then Bad(UnknownVariant(0))
      else
        var (m, rest) :- ReadEntries(s2, count - 1, asset);
        Got(m[asset := amount], rest)
  }

  function EncodeAccount(a: Account): Bytes {
    PutInt(a.nonce, 8, PutInt(|a.balances|, 4, PutEntries(a.balances, Sorted(a.balances.Keys), [])))
  }

  function ReadAccount(s: Bytes): Read<Account> {
    var (nonce, s1) :- ReadInt(s, 8);
    var (count, s2) :- ReadInt(s1, 4);
    var (balances, rest) :- ReadEntries(s2, count, -1);
    Got(Account(nonce, balances), rest)
  }

  function DecodeAccount(s: Bytes): Option<Account> {
    Whole(ReadAccount(s))
  }

  ghost predicate EntryBounds(m: map<nat, nat>) {
    forall k :: k in m ==> k <= U32_MAX && 0 < m[k] <= U128_MAX
  }

  function Restrict(m: map<nat, nat>, keys: set<nat>): map<nat, nat>
    requires keys <= m.Keys
  {
    map k | k in keys :: m[k]
  }

  lemma RestrictStep(m: map<nat, nat>, keys: set<nat>, k: nat)
    requires keys <= m.Keys && k in keys
    ensures Restrict(m, keys - {k})[k := m[k]] == Restrict(m, keys)
  {
  }

  /** Writing a non-empty set of entries writes the least first. */
  lemma PutEntriesStep(m: map<nat, nat>, keys: set<nat>, rest: Bytes)
    requires keys != {} && keys <= m.Keys
    ensures var k := MinOf(keys);
            PutEntries(m, Sorted(keys), rest) == PutInt(k, 4, PutInt(m[k], 16, PutEntries(m, Sorted(keys - {k}), rest)))
  {
    assert Sorted(keys)[1..] == Sorted(keys - {MinOf(keys)});
  }

  /** Reading one entry in front of the rest. */
  lemma ReadEntriesStep(asset: nat, amount: nat, tail: Bytes, count: nat, prev: int)
    requires count > 0 && prev < asset <= U32_MAX && 0 < amount <= U128_MAX
    requires ReadEntries(tail, count - 1, asset).Got?
    ensures ReadEntries(PutInt(asset, 4, PutInt(amount, 16, tail)), count, prev)
         == var r := ReadEntries(tail, count - 1, asset); Got(r.value[asset := amount], r.rest)
  {
    Widths();
    ReadPutInt(asset, 4, PutInt(amount, 16, tail));
    ReadPutInt(amount, 16, tail);
  }

  lemma {:induction false} ReadPutEntries(m: map<nat, nat>, keys: set<nat>, prev: int, rest: Bytes)
    requires keys <= m.Keys && EntryBounds(m) && forall k :: k in keys ==> prev < k
    ensures ReadEntries(PutEntries(m, Sorted(keys), rest), |keys|, prev) == Got(Restrict(m, keys), rest)
    decreases keys
  {
    if keys == {} {
      assert Restrict(m, keys) == map[];
    } else {
      var k := MinOf(keys);
      ReadPutEntries(m, keys - {k}, k, rest);
      PutEntriesStep(m, keys, rest);
      ReadEntriesStep(k, m[k], PutEntries(m, Sorted(keys - {k}), rest), |keys|, prev);
      RestrictStep(m, keys, k);
    }
  }

  lemma {:induction false} PutEntriesAgree(m: map<nat, nat>, n: map<nat, nat>, keys: seq<nat>, rest: Bytes)
    requires forall k :: k in keys ==> k in m && k in n && m[k] == n[k]
    ensures PutEntries(m, keys, rest) == PutEntries(n, keys, rest)
    decreases |keys|
  {
    if keys != [] {
      PutEntriesAgree(m, n, keys[1..], rest);
    }
  }

  /** `s` is the one encoding of `m`, all of whose assets come after `prev`, in front of `rest`. */
  ghost predicate Writes(m: map<nat, nat>, prev: int, s: Bytes, rest: Bytes) {
    && EntryBounds(m)
    && (forall k :: k in m ==> prev < k)
    && s == PutEntries(m, Sorted(m.Keys), rest)
  }

  /** Adding a key below all others puts its entry in front. */
  lemma WritesFront(n: map<nat, nat>, asset: nat, amount: nat, prev: int, tail: Bytes, rest: Bytes)
    requires Writes(n, asset, tail, rest) && prev < asset <= U32_MAX && 0 < amount <= U128_MAX
    ensures |n[asset := amount]| == |n| + 1
    ensures Writes(n[asset := amount], prev, PutInt(asset, 4, PutInt(amount, 16, tail)), rest)
  {
    assert n[asset := amount].Keys == n.Keys + {asset};
    PutEntriesFront(n, asset, amount, rest);
    BoundsGrow(n, asset, amount);
  }

  lemma BoundsGrow(n: map<nat, nat>, asset: nat, amount: nat)
    requires EntryBounds(n) && asset <= U32_MAX && 0 < amount <= U128_MAX
    ensures EntryBounds(n[asset := amount])
  {
    var m := n[asset := amount];
    forall k | k in m ensures k <= U32_MAX && 0 < m[k] <= U128_MAX {
      if k != asset { assert k in n && m[k] == n[k]; }
    }
  }

  lemma PutEntriesFront(n: map<nat, nat>, asset: nat, amount: nat, rest: Bytes)
    requires forall k :: k in n ==> asset < k
    ensures PutEntries(n[asset := amount], Sorted(n[asset := amount].Keys), rest)
         == PutInt(asset, 4, PutInt(amount, 16, PutEntries(n, Sorted(n.Keys), rest)))
  {
    var m := n[asset := amount];
    assert m.Keys == n.Keys + {asset};
    LeastFirst(n.Keys, asset);
    PutEntriesStep(m, m.Keys, rest);
    PutEntriesAgree(m, n, Sorted(n.Keys), rest);
  }

  lemma LeastFirst(keys: set<nat>, least: nat)
    requires forall k :: k in keys ==> least < k
    ensures MinOf(keys + {least}) == least && keys + {least} - {least} == keys
  {
  }

  /** A successful read of entries begins with one entry in bounds. */
  lemma PutReadEntry(s: Bytes, count: nat, prev: int) returns (asset: nat, amount: nat, tail: Bytes)
    requires count > 0 && ReadEntries(s, count, prev).Got?
    ensures prev < asset <= U32_MAX && 0 < amount <= U128_MAX
    ensures s == PutInt(asset, 4, PutInt(amount, 16, tail))
    ensures ReadEntries(tail, count - 1, asset).Got?
    ensures ReadEntries(s, count, prev)
         == var r := ReadEntries(tail, count - 1, asset); Got(r.value[asset := amount], r.rest)
  {
    Widths();
    PutReadInt(s, 4);
    asset := ReadInt(s, 4).value;
    PutReadInt(ReadInt(s, 4).rest, 16);
    amount, tail := ReadInt(ReadInt(s, 4).rest, 16).value, ReadInt(ReadInt(s, 4).rest, 16).rest;
  }

  lemma {:induction false} PutReadEntries(s: Bytes, count: nat, prev: int)
    requires ReadEntries(s, count, prev).Got?
    ensures var r := ReadEntries(s, count, prev); |r.value| == count && Writes(r.value, prev, s, r.rest)
    decreases count
  {
    if count > 0 {
      var asset, amount, tail := PutReadEntry(s, count, prev);
      PutReadEntries(tail, count - 1, asset);
      var r := ReadEntries(tail, count - 1, asset);
      WritesFront(r.value, asset, amount, prev, tail, r.rest);
    }
  }

  /** Every pruned account survives storage, and no two byte strings decode to the same account. */
  lemma AccountRoundTrip(a: Account)
    requires Pruned(a)
    ensures DecodeAccount(EncodeAccount(a)) == Some(a)
  {
    Widths();
    var tail := PutEntries(a.balances, Sorted(a.balances.Keys), []);
    ReadPutInt(a.nonce, 8, PutInt(|a.balances|, 4, tail));
    ReadPutInt(|a.balances|, 4, tail);
    assert |a.balances| == |a.balances.Keys|;
    ReadPutEntries(a.balances, a.balances.Keys, -1, []);
    assert Restrict(a.balances, a.balances.Keys) == a.balances;
  }

  lemma AccountCanonical(s: Bytes)
    requires DecodeAccount(s).Some?
    ensures Pruned(DecodeAccount(s).value) && EncodeAccount(DecodeAccount(s).value) == s
  {
    Widths();
    PutReadInt(s, 8);
    var s1 := ReadInt(s, 8).rest;
    PutReadInt(s1, 4);
    PutReadEntries(ReadInt(s1, 4).rest, ReadInt(s1, 4).value, -1);
  }

  // ----- the fee market

  datatype FeeMarket = FeeMarket(baseFee: nat, floor: nat, target: nat, windowTs: nat, windowGas: nat)

  ghost predicate MarketFits(m: FeeMarket) {
    && m.baseFee <= U128_MAX && m.floor <= U128_MAX
    && m.target <= U64_MAX && m.windowTs <= U64_MAX && m.windowGas <= U64_MAX
  }

  function EncodeMarket(m: FeeMarket): Bytes {
    PutInt(m.baseFee, 16, PutInt(m.floor, 16, PutInt(m.target, 8, PutInt(m.windowTs, 8, PutInt(m.windowGas, 8, [])))))
  }

  function ReadMarket(s: Bytes): Read<FeeMarket> {
    var (baseFee, s1) :- ReadInt(s, 16);
    var (floor, s2) :- ReadInt(s1, 16);
    var (target, s3) :- ReadInt(s2, 8);
    var (windowTs, s4) :- ReadInt(s3, 8);
    var (windowGas, s5) :- ReadInt(s4, 8);
    Got(FeeMarket(baseFee, floor, target, windowTs, windowGas), s5)
  }

  function DecodeMarket(s: Bytes): Option<FeeMarket> {
    Whole(ReadMarket(s))
  }

  lemma MarketRoundTrip(m: FeeMarket)
    requires MarketFits(m)
    ensures DecodeMarket(EncodeMarket(m)) == Some(m)
  {
    Widths();
    var s5: Bytes := [];
    var s4 := PutInt(m.windowGas, 8, s5);
    var s3 := PutInt(m.windowTs, 8, s4);
    var s2 := PutInt(m.target, 8, s3);
    var s1 := PutInt(m.floor, 16, s2);
    ReadPutInt(m.baseFee, 16, s1);
    ReadPutInt(m.floor, 16, s2);
    ReadPutInt(m.target, 8, s3);
    ReadPutInt(m.windowTs, 8, s4);
    ReadPutInt(m.windowGas, 8, s5);
  }

  lemma MarketCanonical(s: Bytes)
    requires DecodeMarket(s).Some?
    ensures MarketFits(DecodeMarket(s).value) && EncodeMarket(DecodeMarket(s).value) == s
  {
    Widths();
    PutReadInt(s, 16);
    var s1 := ReadInt(s, 16).rest;
    PutReadInt(s1, 16);
    var s2 := ReadInt(s1, 16).rest;
    PutReadInt(s2, 8);
    var s3 := ReadInt(s2, 8).rest;
    PutReadInt(s3, 8);
    PutReadInt(ReadInt(s3, 8).rest, 8);
  }

  // ----- whitelisted assets

  datatype WhitelistedAsset = WhitelistedAsset(asset: nat, symbol: Bytes, rate: nat, intrinsicGas: nat, enabled: bool)

  ghost predicate AssetFits(a: WhitelistedAsset) {
    && a.asset <= U32_MAX && |a.symbol| <= U32_MAX && IsString(a.symbol)
    && a.rate <= U128_MAX && a.intrinsicGas <= U64_MAX
  }

  function EncodeAsset(a: WhitelistedAsset): Bytes {
    PutInt(a.asset, 4, PutBytes(a.symbol, PutInt(a.rate, 16, PutInt(a.intrinsicGas, 8, PutBool(a.enabled, [])))))
  }

  function ReadAsset(s: Bytes): Read<WhitelistedAsset> {
    var (asset, s1) :- ReadInt(s, 4);
    var (symbol, s2) :- ReadString(s1);
    var (rate, s3) :- ReadInt(s2, 16);
    var (gas, s4) :- ReadInt(s3, 8);
    var (enabled, s5) :- ReadBool(s4);
    Got(WhitelistedAsset(asset, symbol, rate, gas, enabled), s5)
  }

  function DecodeAsset(s: Bytes): Option<WhitelistedAsset> {
    Whole(ReadAsset(s))
  }

  lemma AssetRoundTrip(a: WhitelistedAsset)
    requires AssetFits(a)
    ensures DecodeAsset(EncodeAsset(a)) == Some(a)
  {
    Widths();
    var s4 := PutBool(a.enabled, []);
    var s3 := PutInt(a.intrinsicGas, 8, s4);
    var s2 := PutInt(a.rate, 16, s3);
    ReadPutInt(a.asset, 4, PutBytes(a.symbol, s2));
    ReadPutString(a.symbol, s2);
    ReadPutInt(a.rate, 16, s3);
    ReadPutInt(a.intrinsicGas, 8, s4);
    ReadPutBool(a.enabled, []);
  }

  // ----- the fee split

  datatype FeeSplit = FeeSplit(beneficiaries: seq<(Bytes32, nat)>, burn: nat)

  const MAX_FEE_BENEFICIARIES: nat := 8

  ghost predicate SplitFits(f: FeeSplit) {
    && |f.beneficiaries| <= MAX_FEE_BENEFICIARIES && f.burn <= U32_MAX
    && forall i :: 0 <= i < |f.beneficiaries| ==> f.beneficiaries[i].1 <= U32_MAX
  }

  function PutBeneficiaries(bs: seq<(Bytes32, nat)>, rest: Bytes): Bytes {
    if bs == [] then rest
    else bs[0].0 + PutInt(bs[0].1, 4, PutBeneficiaries(bs[1..], rest))
  }

  function ReadBeneficiaries(s: Bytes, count: nat): Read<seq<(Bytes32, nat)>>
    decreases count
  {
    if count == 0 then Got([], s)
    else
      var (address, s1) :- TakeBytes(s, 32);
      var (share, s2) :- ReadInt(s1, 4);
      var (bs, rest) :- ReadBeneficiaries(s2, count - 1);
      Got([(address, share)] + bs, rest)
  }

  function EncodeSplit(f: FeeSplit): Bytes {
    PutInt(|f.beneficiaries|, 4, PutBeneficiaries(f.beneficiaries, PutInt(f.burn, 4, [])))
  }

  function ReadSplit(s: Bytes): Read<FeeSplit> {
    var (count, s1) :- ReadInt(s, 4);
    if count > MAX_FEE_BENEFICIARIES then Bad(LengthOverflow)
    else
      var (bs, s2) :- ReadBeneficiaries(s1, count);
      var (burn, s3) :- ReadInt(s2, 4);
      Got(FeeSplit(bs, burn), s3)
  }

  function DecodeSplit(s: Bytes): Option<FeeSplit> {
    Whole(ReadSplit(s))
  }

  lemma {:induction false} ReadPutBeneficiaries(bs: seq<(Bytes32, nat)>, rest: Bytes)
    requires forall i :: 0 <= i < |bs| ==> bs[i].1 <= U32_MAX
    ensures ReadBeneficiaries(PutBeneficiaries(bs, rest), |bs|) == Got(bs, rest)
    decreases |bs|
  {
    if bs != [] {
      Widths();
      var tail := PutBeneficiaries(bs[1..], rest);
      ReadPutRaw(bs[0].0, PutInt(bs[0].1, 4, tail));
      ReadPutInt(bs[0].1, 4, tail);
      ReadPutBeneficiaries(bs[1..], rest);
      assert [(bs[0].0, bs[0].1)] + bs[1..] == bs;
    }
  }

  lemma {:induction false} PutReadBeneficiaries(s: Bytes, count: nat)
    requires ReadBeneficiaries(s, count).Got?
    ensures var bs := ReadBeneficiaries(s, count).value;
            && |bs| == count && (forall i :: 0 <= i < |bs| ==> bs[i].1 <= U32_MAX)
            && s == PutBeneficiaries(bs, ReadBeneficiaries(s, count).rest)
    decreases count
  {
    if count > 0 {
      Widths();
      PutReadRaw(s, 32);
      var s1 := TakeBytes(s, 32).rest;
      PutReadInt(s1, 4);
      PutReadBeneficiaries(ReadInt(s1, 4).rest, count - 1);
      var bs := ReadBeneficiaries(s, count).value;
      assert bs[1..] == ReadBeneficiaries(ReadInt(s1, 4).rest, count - 1).value;
    }
  }

  lemma SplitRoundTrip(f: FeeSplit)
    requires SplitFits(f)
    ensures DecodeSplit(EncodeSplit(f)) == Some(f)
  {
    Widths();
    var tail := PutInt(f.burn, 4, []);
    ReadPutInt(|f.beneficiaries|, 4, PutBeneficiaries(f.beneficiaries, tail));
    ReadPutBeneficiaries(f.beneficiaries, tail);
    ReadPutInt(f.burn, 4, []);
  }

  lemma SplitCanonical(s: Bytes)
    requires DecodeSplit(s).Some?
    ensures SplitFits(DecodeSplit(s).value) && EncodeSplit(DecodeSplit(s).value) == s
  {
    Widths();
    PutReadInt(s, 4);
    var s1 := ReadInt(s, 4).rest;
    PutReadBeneficiaries(s1, ReadInt(s, 4).value);
    PutReadInt(ReadBeneficiaries(s1, ReadInt(s, 4).value).rest, 4);
  }

  // ----- the council

  datatype Council = Council(members: seq<Bytes32>, threshold: nat, epoch: nat, guardianThreshold: nat)

  ghost predicate CouncilFits(c: Council) {
    |c.members| <= U32_MAX && c.threshold <= U32_MAX && c.epoch <= U64_MAX && c.guardianThreshold <= U32_MAX
  }

  function PutMembers(ms: seq<Bytes32>, rest: Bytes): Bytes {
    if ms == [] then rest else ms[0] + PutMembers(ms[1..], rest)
  }

  function ReadMembers(s: Bytes, count: nat): Read<seq<Bytes32>>
    decreases count
  {
    if count == 0 then Got([], s)
    else
      var (m, s1) :- TakeBytes(s, 32);
      var (ms, rest) :- ReadMembers(s1, count - 1);
      Got([m] + ms, rest)
  }

  function EncodeCouncil(c: Council): Bytes {
    PutInt(|c.members|, 4,
      PutMembers(c.members, PutInt(c.threshold, 4, PutInt(c.epoch, 8, PutInt(c.guardianThreshold, 4, [])))))
  }

  function ReadCouncil(s: Bytes): Read<Council> {
    var (count, s1) :- ReadInt(s, 4);
    var (members, s2) :- ReadMembers(s1, count);
    var (threshold, s3) :- ReadInt(s2, 4);
    var (epoch, s4) :- ReadInt(s3, 8);
    var (guardian, s5) :- ReadInt(s4, 4);
    Got(Council(members, threshold, epoch, guardian), s5)
  }

  function DecodeCouncil(s: Bytes): Option<Council> {
    Whole(ReadCouncil(s))
  }

  lemma {:induction false} ReadPutMembers(ms: seq<Bytes32>, rest: Bytes)
    ensures ReadMembers(PutMembers(ms, rest), |ms|) == Got(ms, rest)
    decreases |ms|
  {
    if ms != [] {
      ReadPutRaw(ms[0], PutMembers(ms[1..], rest));
      ReadPutMembers(ms[1..], rest);
      assert [ms[0]] + ms[1..] == ms;
    }
  }

  lemma {:induction false} PutReadMembers(s: Bytes, count: nat)
    requires ReadMembers(s, count).Got?
    ensures |ReadMembers(s, count).value| == count
    ensures s == PutMembers(ReadMembers(s, count).value, ReadMembers(s, count).rest)
    decreases count
  {
    if count > 0 {
      PutReadRaw(s, 32);
      PutReadMembers(TakeBytes(s, 32).rest, count - 1);
      var ms := ReadMembers(s, count).value;
      assert ms[1..] == ReadMembers(TakeBytes(s, 32).rest, count - 1).value;
    }
  }

  lemma CouncilRoundTrip(c: Council)
    requires CouncilFits(c)
    ensures DecodeCouncil(EncodeCouncil(c)) == Some(c)
  {
    Widths();
    var s4 := PutInt(c.guardianThreshold, 4, []);
    var s3 := PutInt(c.epoch, 8, s4);
    var s2 := PutInt(c.threshold, 4, s3);
    ReadPutInt(|c.members|, 4, PutMembers(c.members, s2));
    ReadPutMembers(c.members, s2);
    ReadPutInt(c.threshold, 4, s3);
    ReadPutInt(c.epoch, 8, s4);
    ReadPutInt(c.guardianThreshold, 4, []);
  }

  lemma CouncilCanonical(s: Bytes)
    requires DecodeCouncil(s).Some?
    ensures CouncilFits(DecodeCouncil(s).value) && EncodeCouncil(DecodeCouncil(s).value) == s
  {
    Widths();
    PutReadInt(s, 4);
    var s1 := ReadInt(s, 4).rest;
    PutReadMembers(s1, ReadInt(s, 4).value);
    var s2 := ReadMembers(s1, ReadInt(s, 4).value).rest;
    PutReadInt(s2, 4);
    var s3 := ReadInt(s2, 4).rest;
    PutReadInt(s3, 8);
    PutReadInt(ReadInt(s3, 8).rest, 4);
  }

  // ----- social bindings and JWK records

  datatype SocialBinding = Bound(address: Bytes32) | Vacant

  function EncodeBinding(b: SocialBinding): Bytes {
    match b
    case Bound(address) => PutInt(0, 1, address)
    case Vacant => PutInt(1, 1, [])
  }

  function ReadBinding(s: Bytes): Read<SocialBinding> {
    var (tag, s1) :- ReadInt(s, 1);
    if tag == 0 then
      var (address, s2) :- TakeBytes(s1, 32);
      Got(Bound(address), s2)
    else if tag == 1 then Got(Vacant, s1)
    else Bad(UnknownVariant(tag))
  }

  function DecodeBinding(s: Bytes): Option<SocialBinding> {
    Whole(ReadBinding(s))
  }

  lemma BindingRoundTrip(b: SocialBinding)
    ensures DecodeBinding(EncodeBinding(b)) == Some(b)
  {
    Widths();
    match b
    case Bound(address) =>
      ReadPutInt(0, 1, address);
      assert address[..32] == address && address[32..] == [];
    case Vacant => ReadPutInt(1, 1, []);
  }

  function DecodeJwk(s: Bytes): Option<bool> {
    if s == [0] then Some(false) else if s == [1] then Some(true) else None
  }

  function EncodeJwk(active: bool): Bytes {
    if active then [1] else [0]
  }

  // ----- the account as the source updates it

  class AccountCell {
    var nonce: nat
    var balances: map<nat, nat>

    ghost function Now(): Account
      reads this
    {
      Account(nonce, balances)
    }

    constructor (a: Account)
      ensures Now() == a
    {
      nonce, balances := a.nonce, a.balances;
    }

    /** A refused credit changes nothing. */
    method Credit(asset: nat, amount: nat) returns (r: Result<(), BalanceError>)
      modifies this`balances
      ensures match CreditAccount(old(Now()), asset, amount)
              case Ok(a) => r == Ok(()) && Now() == a
              case Err(e) => r == Err(e) && Now() == old(Now())
    {
      if amount == 0 {
        return Ok(());
      }
      var current := if asset in balances then balances[asset] else 0;
      if current + amount > U128_MAX {
        return Err(Overflow);
      }
      balances := balances[asset := current + amount];
      return Ok(());
    }

    /** A refused debit changes nothing. */
    method Debit(asset: nat, amount: nat) returns (r: Result<(), BalanceError>)
      modifies this`balances
      ensures match DebitAccount(old(Now()), asset, amount)
              case Ok(a) => r == Ok(()) && Now() == a
              case Err(e) => r == Err(e) && Now() == old(Now())
    {
      if amount == 0 {
        return Ok(());
      }
      var current := if asset in balances then balances[asset] else 0;
      if current < amount {
        return Err(Insufficient(current, amount));
      }
      if current == amount {
        balances := balances - {asset};
      } else {
        balances := balances[asset := current - amount];
      }
      return Ok(());
    }
  }
}
