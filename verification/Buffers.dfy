/** Accounts and transactions written to and read from the mutable buffers the source threads
    through its codecs, each proved to do what the value-level format says. */
module Buffers {
  import opened Digests
  import opened Codec
  import opened Records
  import opened Governance
  import opened Wire

  /** A reader step did what the format says: same value and rest, or the same error. */
  ghost predicate Follows<T(!new)>(spec: Read<T>, r: Result<T, DecodeError>, rest: Bytes) {
    match spec
    case Got(v, s) => r == Ok(v) && rest == s
    case Bad(e) => r == Err(e)
  }

  // ----- accounts

  /** The least key, found by scanning. */
  method Least(keys: set<nat>) returns (m: nat)
    requires keys != {}
    ensures m == MinOf(keys)
  {
    m :| m in keys;
    var left := keys - {m};
    while left != {}
      invariant left <= keys && m in keys && m !in left && forall k :: k in keys && k !in left ==> m <= k
      decreases |left|
    {
      var k :| k in left;
      left := left - {k};
      if k < m {
        m := k;
      }
    }
  }

  /** What is still to be written when `keys` are left. */
  function EntriesOf(m: map<nat, nat>, keys: set<nat>): Bytes
    requires keys <= m.Keys
  {
    PutEntries(m, Sorted(keys), [])
  }

  lemma WriteStep(m: map<nat, nat>, keys: set<nat>, before: Bytes)
    requires keys != {} && keys <= m.Keys
    ensures var k := MinOf(keys);
            before + PutInt(k, 4, []) + PutInt(m[k], 16, []) + EntriesOf(m, keys - {k}) == before + EntriesOf(m, keys)
  {
    var k := MinOf(keys);
    PutEntriesStep(m, keys, []);
    JoinInts(before, k, m[k], EntriesOf(m, keys - {k}));
  }

  lemma JoinInts(before: Bytes, k: nat, v: nat, tail: Bytes)
    ensures before + PutInt(k, 4, []) + PutInt(v, 16, []) + tail == before + PutInt(k, 4, PutInt(v, 16, tail))
  {
  }

  /** Writes balances in increasing order of asset. */
  method WriteEntries(w: Writer, m: map<nat, nat>)
    modifies w
    ensures w.buf == old(w.buf) + EntriesOf(m, m.Keys)
  {
    var left := m.Keys;
    while left != {}
      invariant left <= m.Keys && w.buf + EntriesOf(m, left) == old(w.buf) + EntriesOf(m, m.Keys)
      decreases |left|
    {
      WriteStep(m, left, w.buf);
      var k := Least(left);
      w.Int(k, 4);
      w.Int(m[k], 16);
      left := left - {k};
    }
    NothingLeft(m, w.buf);
  }

  lemma NothingLeft(m: map<nat, nat>, s: Bytes)
    ensures s + EntriesOf(m, {}) == s
  {
    assert Sorted({}) == [];
  }

  lemma TwoInts(m: nat, n: nat, tail: Bytes)
    ensures [] + PutInt(m, 8, []) + PutInt(n, 4, []) + tail == PutInt(m, 8, PutInt(n, 4, tail))
  {
  }

  method WriteAccount(a: Account) returns (bytes: Bytes)
    ensures bytes == EncodeAccount(a)
  {
    var w := new Writer();
    w.Int(a.nonce, 8);
    w.Int(|a.balances|, 4);
    WriteEntries(w, a.balances);
    TwoInts(a.nonce, |a.balances|, EntriesOf(a.balances, a.balances.Keys));
    return w.buf;
  }

  /** Reads balances one by one, refusing a zero balance and an asset out of order. */
  method ReadBalances(rd: Reader, count: nat) returns (r: Result<map<nat, nat>, DecodeError>)
    requires rd.Valid()
    modifies rd
    ensures rd.Valid() && Follows(ReadEntries(old(rd.Rest()), count, -1), r, rd.Rest())
  {
    var balances: map<nat, nat> := map[];
    var previous: int := -1;
    ghost var whole := ReadEntries(rd.Rest(), count, -1);
    OnwardStart(whole);
    for i := 0 to count
      invariant rd.Valid() && (forall k :: k in balances ==> k <= previous)
      invariant Onward(whole, balances, ReadEntries(rd.Rest(), count - i, previous))
    {
      OnwardStep(whole, balances, rd.Rest(), count - i, previous);
      var entry :- ReadEntryFrom(rd);
      var (asset, amount) := entry;
      if asset <= previous || amount == 0 {
        return Err(UnknownVariant(0));
      }
      balances := balances[asset := amount];
      previous := asset;
    }
    OnwardEnd(whole, balances, rd.Rest(), previous);
    return Ok(balances);
  }

  ghost function ReadEntry(s: Bytes): Read<(nat, nat)> {
    var (asset, s1) :- ReadInt(s, 4);
    var (amount, rest) :- ReadInt(s1, 16);
    Got((asset, amount), rest)
  }

  method ReadEntryFrom(rd: Reader) returns (r: Result<(nat, nat), DecodeError>)
    requires rd.Valid()
    modifies rd
    ensures rd.Valid() && Follows(ReadEntry(old(rd.Rest())), r, rd.Rest())
  {
    var asset :- rd.Int(4);
    var amount :- rd.Int(16);
    return Ok((asset, amount));
  }

  /** Reading from here on is reading from the start, less what has been read. */
  ghost predicate Onward(whole: Read<map<nat, nat>>, done: map<nat, nat>, rest: Read<map<nat, nat>>) {
    match rest
    case Bad(e) => whole == Bad(e)
    case Got(m, s) => whole == Got(done + m, s) && done.Keys !! m.Keys
  }

  lemma OnwardStart(whole: Read<map<nat, nat>>)
    ensures Onward(whole, map[], whole)
  {
    if whole.Got? {
      assert map[] + whole.value == whole.value;
    }
  }

  lemma OnwardStep(whole: Read<map<nat, nat>>, done: map<nat, nat>, s: Bytes, count: nat, previous: int)
    requires count > 0 && (forall k :: k in done ==> k <= previous)
    requires Onward(whole, done, ReadEntries(s, count, previous))
    ensures match ReadEntry(s)
            case Bad(e) => whole == Bad(e)
            case Got((asset, amount), tail) =>
              if asset <= previous || amount == 0 then whole == Bad(UnknownVariant(0))
              else Onward(whole, done[asset := amount], ReadEntries(tail, count - 1, asset))
  {
    var entry := ReadEntry(s);
    if entry.Got? && entry.value.0 > previous && entry.value.1 > 0 {
      var rest := ReadEntries(entry.rest, count - 1, entry.value.0);
      if rest.Got? {
        EntriesComeAfter(entry.rest, count - 1, entry.value.0);
        MoveAcross(done, rest.value, entry.value.0, entry.value.1);
      }
    }
  }

  lemma OnwardEnd(whole: Read<map<nat, nat>>, done: map<nat, nat>, s: Bytes, previous: int)
    requires Onward(whole, done, ReadEntries(s, 0, previous))
    ensures whole == Got(done, s)
  {
    assert done + map[] == done;
  }

  lemma EntriesComeAfter(s: Bytes, count: nat, previous: int)
    requires ReadEntries(s, count, previous).Got?
    ensures forall k :: k in ReadEntries(s, count, previous).value ==> previous < k
  {
    PutReadEntries(s, count, previous);
  }

  lemma MoveAcross(done: map<nat, nat>, m: map<nat, nat>, asset: nat, amount: nat)
    requires asset !in done && asset !in m && done.Keys !! m.Keys
    ensures done + m[asset := amount] == done[asset := amount] + m && done[asset := amount].Keys !! m.Keys
  {
  }

  method ReadStoredAccount(bytes: Bytes) returns (a: Option<Account>)
    ensures a == DecodeAccount(bytes)
  {
    var rd := new Reader(bytes);
    var read := ReadAccountFrom(rd);
    if read.Err? {
      return None;
    }
    var end := rd.Finish();
    return if end.Ok? then Some(read.value) else None;
  }

  method ReadAccountFrom(rd: Reader) returns (r: Result<Account, DecodeError>)
    requires rd.Valid()
    modifies rd
    ensures rd.Valid() && Follows(ReadAccount(old(rd.Rest())), r, rd.Rest())
  {
    var nonce :- rd.Int(8);
    var count :- rd.Int(4);
    var balances :- ReadBalances(rd, count);
    return Ok(Account(nonce, balances));
  }

  // ----- reading transactions

  method ReadTransferFrom(rd: Reader) returns (r: Result<Payload, DecodeError>)
    requires rd.Valid()
    modifies rd
    ensures rd.Valid() && Follows(ReadTransfer(old(rd.Rest())), r, rd.Rest())
  {
    var to :- rd.Take(32);
    var asset :- rd.Int(4);
    var amount :- rd.Int(16);
    return Ok(Transfer(to, asset, amount));
  }

  method ReadBindNameFrom(rd: Reader) returns (r: Result<Payload, DecodeError>)
    requires rd.Valid()
    modifies rd
    ensures rd.Valid() && Follows(ReadBindName(old(rd.Rest())), r, rd.Rest())
  {
    var d :- rd.Int(1);
    if d > 2 {
      return Err(UnknownVariant(d));
    }
    var id :- rd.Take(32);
    return Ok(BindName(if d == 0 then Email else if d == 1 then Phone else Handle, id));
  }

  method ReadSplitFrom(rd: Reader, variant: nat) returns (r: Result<FeeSplit, DecodeError>)
    requires rd.Valid()
    modifies rd
    ensures rd.Valid() && Follows(ReadWireSplit(old(rd.Rest()), variant), r, rd.Rest())
  {
    var bytes :- rd.LengthPrefixed();
    var split := DecodeSplit(bytes);
    if split.None? || EncodeSplit(split.value) != bytes {
      return Err(UnknownVariant(variant));
    }
    return Ok(split.value);
  }

  method ReadDistributeFeesFrom(rd: Reader) returns (r: Result<Payload, DecodeError>)
    requires rd.Valid()
    modifies rd
    ensures rd.Valid() && Follows(ReadDistributeFees(old(rd.Rest())), r, rd.Rest())
  {
    var asset :- rd.Int(4);
    var amount :- rd.Int(16);
    var split :- ReadSplitFrom(rd, 4);
    return Ok(DistributeFees(asset, amount, split));
  }

  method ReadGasAssetFrom(rd: Reader) returns (r: Result<GovernanceUpdate, DecodeError>)
    requires rd.Valid()
    modifies rd
    ensures rd.Valid() && Follows(ReadSetGasAsset(old(rd.Rest())), r, rd.Rest())
  {
    var bytes :- rd.LengthPrefixed();
    var record := DecodeAsset(bytes);
    if record.None? || EncodeAsset(record.value) != bytes {
      return Err(UnknownVariant(0));
    }
    return Ok(SetGasAsset(record.value));
  }

  method ReadParameterFrom(rd: Reader) returns (r: Result<GovernanceUpdate, DecodeError>)
    requires rd.Valid()
    modifies rd
    ensures rd.Valid() && Follows(ReadSetParameter(old(rd.Rest())), r, rd.Rest())
  {
    var name :- rd.LengthPrefixed();
    var value :- rd.Int(16);
    return Ok(SetParameter(Lossy(name), value));
  }

  method ReadJwkFrom(rd: Reader) returns (r: Result<GovernanceUpdate, DecodeError>)
    requires rd.Valid()
    modifies rd
    ensures rd.Valid() && Follows(ReadSetJwk(old(rd.Rest())), r, rd.Rest())
  {
    var iss :- rd.Take(32);
    var jwk :- rd.Take(32);
    var active :- rd.Bool();
    return Ok(SetJwk(iss, jwk, active));
  }

  method ReadFeeMarketFrom(rd: Reader) returns (r: Result<GovernanceUpdate, DecodeError>)
    requires rd.Valid()
    modifies rd
    ensures rd.Valid() && Follows(ReadSetFeeMarket(old(rd.Rest())), r, rd.Rest())
  {
    var floor :- rd.Int(16);
    var target :- rd.Int(8);
    return Ok(SetFeeMarket(floor, target));
  }

  method ReadUpdateFrom(rd: Reader) returns (r: Result<GovernanceUpdate, DecodeError>)
    requires rd.Valid()
    modifies rd
    ensures rd.Valid() && Follows(ReadUpdate(old(rd.Rest())), r, rd.Rest())
  {
    var tag :- rd.Int(1);
    if tag == 0 {
      r := ReadGasAssetFrom(rd);
    } else if tag == 1 {
      r := ReadParameterFrom(rd);
    } else if tag == 2 {
      r := ReadJwkFrom(rd);
    } else if tag == 3 {
      r := ReadFeeMarketFrom(rd);
    } else if tag == 4 {
      var split :- ReadSplitFrom(rd, 4);
      r := Ok(SetFeeSplit(split));
    } else if tag == 5 {
      var asset :- rd.Int(4);
      r := Ok(DisableGasAsset(asset));
    } else {
      r := Err(UnknownVariant(tag));
    }
  }

  /** Reading signatures from here on is reading them from the start, less those already read. */
  ghost predicate SignaturesOnward(whole: Read<seq<CouncilSignature>>, done: seq<CouncilSignature>, rest: Read<seq<CouncilSignature>>) {
    match rest
    case Bad(e) => whole == Bad(e)
    case Got(more, s) => whole == Got(done + more, s)
  }

  lemma SignaturesStart(whole: Read<seq<CouncilSignature>>)
    ensures SignaturesOnward(whole, [], whole)
  {
    if whole.Got? {
      assert [] + whole.value == whole.value;
    }
  }

  lemma SignaturesStep(whole: Read<seq<CouncilSignature>>, done: seq<CouncilSignature>, s: Bytes, count: nat)
    requires count > 0 && SignaturesOnward(whole, done, ReadSignatures(s, count))
    ensures match ReadSignature(s)
            case Bad(e) => whole == Bad(e)
            case Got(sig, tail) => SignaturesOnward(whole, done + [sig], ReadSignatures(tail, count - 1))
  {
    var one := ReadSignature(s);
    if one.Got? {
      var rest := ReadSignatures(one.rest, count - 1);
      if rest.Got? {
        assert done + ([one.value] + rest.value) == done + [one.value] + rest.value;
      }
    }
  }

  lemma SignaturesEnd(whole: Read<seq<CouncilSignature>>, done: seq<CouncilSignature>, s: Bytes)
    requires SignaturesOnward(whole, done, ReadSignatures(s, 0))
    ensures whole == Got(done, s)
  {
    assert done + [] == done;
  }

  method ReadSignatureFrom(rd: Reader) returns (r: Result<CouncilSignature, DecodeError>)
    requires rd.Valid()
    modifies rd
    ensures rd.Valid() && Follows(ReadSignature(old(rd.Rest())), r, rd.Rest())
  {
    var index :- rd.Int(4);
    var sig :- rd.LengthPrefixed();
    if |sig| != 64 {
      return Err(LengthOverflow);
    }
    return Ok(CouncilSignature(index, sig));
  }

  method ReadSignaturesFrom(rd: Reader, count: nat) returns (r: Result<seq<CouncilSignature>, DecodeError>)
    requires rd.Valid()
    modifies rd
    ensures rd.Valid() && Follows(ReadSignatures(old(rd.Rest()), count), r, rd.Rest())
  {
    var sigs: seq<CouncilSignature> := [];
    ghost var whole := ReadSignatures(rd.Rest(), count);
    SignaturesStart(whole);
    for i := 0 to count
      invariant rd.Valid() && SignaturesOnward(whole, sigs, ReadSignatures(rd.Rest(), count - i))
    {
      SignaturesStep(whole, sigs, rd.Rest(), count - i);
      var sig := ReadSignatureFrom(rd);
      if sig.Err? {
        return Err(sig.error);
      }
      sigs := sigs + [sig.value];
    }
    SignaturesEnd(whole, sigs, rd.Rest());
    return Ok(sigs);
  }

  method ReadGovernanceFrom(rd: Reader) returns (r: Result<Payload, DecodeError>)
    requires rd.Valid()
    modifies rd
    ensures rd.Valid() && Follows(ReadGovernance(old(rd.Rest())), r, rd.Rest())
  {
    var epoch :- rd.Int(8);
    var bytes :- rd.LengthPrefixed();
    var inner := new Reader(bytes);
    var update :- ReadUpdateFrom(inner);
    var _ :- inner.Finish();
    var count :- rd.Int(4);
    if count > MAX_COUNCIL_SIGNATURES {
      return Err(SignatureLimit);
    }
    var sigs :- ReadSignaturesFrom(rd, count);
    return Ok(Governance(epoch, update, sigs));
  }

  method ReadPayloadFrom(rd: Reader) returns (r: Result<Payload, DecodeError>)
    requires rd.Valid()
    modifies rd
    ensures rd.Valid() && Follows(ReadPayload(old(rd.Rest())), r, rd.Rest())
  {
    var tag :- rd.Int(1);
    if tag == 0 {
      r := ReadTransferFrom(rd);
    } else if tag == 1 {
      r := ReadBindNameFrom(rd);
    } else if tag == 2 {
      var id :- rd.Take(32);
      r := Ok(UnbindName(id));
    } else if tag == 3 {
      r := ReadGovernanceFrom(rd);
    } else if tag == 4 {
      r := ReadDistributeFeesFrom(rd);
    } else {
      r := Err(UnknownVariant(tag));
    }
  }

  method ReadExtraFrom(rd: Reader) returns (r: Result<Option<Bytes32>, DecodeError>)
    requires rd.Valid()
    modifies rd
    ensures rd.Valid() && Follows(ReadExtra(old(rd.Rest())), r, rd.Rest())
  {
    var flag :- rd.Bool();
    if !flag {
      return Ok(None);
    }
    var h :- rd.Take(32);
    return Ok(Some(h));
  }

  method ReadKeylessRestFrom(rd: Reader, iss: Bytes32, idc: Bytes32, epk: Bytes32, esig: Bytes64)
    returns (r: Result<KeylessSignature, DecodeError>)
    requires rd.Valid()
    modifies rd
    ensures rd.Valid() && Follows(ReadKeylessRest(iss, idc, epk, esig, old(rd.Rest())), r, rd.Rest())
  {
    var expDate :- rd.Int(8);
    var horizon :- rd.Int(8);
    var header :- rd.Take(32);
    var jwk :- rd.Take(32);
    var extra :- ReadExtraFrom(rd);
    var proof :- rd.Take(128);
    return Ok(KeylessSignature(iss, idc, epk, esig, expDate, horizon, header, jwk, extra, proof));
  }

  method ReadKeylessFrom(rd: Reader) returns (r: Result<KeylessSignature, DecodeError>)
    requires rd.Valid()
    modifies rd
    ensures rd.Valid() && Follows(ReadKeyless(old(rd.Rest())), r, rd.Rest())
  {
    var iss :- rd.Take(32);
    var idc :- rd.Take(32);
    var epk :- rd.Take(32);
    var esig :- rd.Take(64);
    r := ReadKeylessRestFrom(rd, iss, idc, epk, esig);
  }

  method ReadAuthenticatorFrom(rd: Reader) returns (r: Result<Authenticator, DecodeError>)
    requires rd.Valid()
    modifies rd
    ensures rd.Valid() && Follows(ReadAuthenticator(old(rd.Rest())), r, rd.Rest())
  {
    var tag :- rd.Int(1);
    if tag == 0 {
      var key :- rd.Take(32);
      var sig :- rd.Take(64);
      return Ok(Ed25519Auth(key, sig));
    } else if tag == 1 {
      var k :- ReadKeylessFrom(rd);
      return Ok(Keyless(k));
    }
    return Err(UnknownVariant(tag));
  }

  method ReadHeadFrom(rd: Reader) returns (r: Result<Head, DecodeError>)
    requires rd.Valid()
    modifies rd
    ensures rd.Valid() && Follows(ReadHead(old(rd.Rest())), r, rd.Rest())
  {
    var sender :- rd.Take(32);
    var nonce :- rd.Int(8);
    var feeAsset :- rd.Int(4);
    var feeRate :- rd.Int(16);
    var intrinsic :- rd.Int(8);
    var gasLimit :- rd.Int(8);
    var maxFee :- rd.Int(16);
    var maxPriority :- rd.Int(16);
    return Ok(Head(sender, nonce, feeAsset, feeRate, intrinsic, gasLimit, maxFee, maxPriority));
  }

  method ReadTxFrom(rd: Reader) returns (r: Result<Transaction, DecodeError>)
    requires rd.Valid()
    modifies rd
    ensures rd.Valid() && Follows(ReadTx(old(rd.Rest())), r, rd.Rest())
  {
    var head :- ReadHeadFrom(rd);
    var bytes :- rd.LengthPrefixed();
    var inner := new Reader(bytes);
    var payload :- ReadPayloadFrom(inner);
    var _ :- inner.Finish();
    var auth :- ReadAuthenticatorFrom(rd);
    return Ok(Assemble(head, payload, auth));
  }

  method ReadWholeTx(bytes: Bytes) returns (r: Result<Transaction, DecodeError>)
    ensures Follows(Finished(ReadTx(bytes)), r, [])
  {
    var rd := new Reader(bytes);
    r := ReadTxFrom(rd);
    if r.Ok? {
      var end := rd.Finish();
      if end.Err? {
        return Err(end.error);
      }
    }
  }

  /** `decode`: within the size limit, whole, and the one encoding of what it decodes to. */
  method Decode(bytes: Bytes) returns (r: Result<Transaction, WireError>)
    ensures r == DecodeTx(bytes)
  {
    if |bytes| > MAX_TRANSACTION_BYTES {
      return Err(TooLarge(|bytes|));
    }
    var read := ReadWholeTx(bytes);
    if read.Err? {
      return Err(if read.error.SignatureLimit? then TooManySignatures else MalformedTx(read.error));
    }
    var again := Encode(read.value);
    return if again != bytes then Err(MalformedTx(UnknownVariant(0xff))) else Ok(read.value);
  }

  // ----- writing transactions

  /** Writing one field of what is left leaves the rest. */
  lemma IntWritten(buf: Bytes, n: nat, w: nat, rest: Bytes)
    ensures buf + PutInt(n, w, rest) == buf + PutInt(n, w, []) + rest
  {
  }

  lemma RawWritten(buf: Bytes, b: Bytes, rest: Bytes)
    ensures buf + (b + rest) == buf + b + rest
  {
  }

  lemma BytesWritten(buf: Bytes, b: Bytes, rest: Bytes)
    ensures buf + PutBytes(b, rest) == buf + PutBytes(b, []) + rest
  {
    RawWritten(buf + PutInt(|b|, 4, []), b, rest);
    IntWritten(buf, |b|, 4, b + rest);
    IntWritten(buf, |b|, 4, b + []);
    assert b + [] == b;
  }

  method WriteHead(w: Writer, h: Head, ghost rest: Bytes)
    modifies w
    ensures w.buf + rest == old(w.buf) + PutHead(h, rest)
  {
    ghost var prices := PutPrices(h, rest);
    RawWritten(w.buf, h.sender, PutInt(h.nonce, 8, PutInt(h.feeAsset, 4, PutInt(h.feeRate, 16, prices))));
    w.Raw(h.sender);
    IntWritten(w.buf, h.nonce, 8, PutInt(h.feeAsset, 4, PutInt(h.feeRate, 16, prices)));
    w.Int(h.nonce, 8);
    IntWritten(w.buf, h.feeAsset, 4, PutInt(h.feeRate, 16, prices));
    w.Int(h.feeAsset, 4);
    IntWritten(w.buf, h.feeRate, 16, prices);
    w.Int(h.feeRate, 16);
    WritePrices(w, h, rest);
  }

  method WritePrices(w: Writer, h: Head, ghost rest: Bytes)
    modifies w
    ensures w.buf + rest == old(w.buf) + PutPrices(h, rest)
  {
    ghost var tips := PutInt(h.maxPriorityFeePerGas, 16, rest);
    ghost var fees := PutInt(h.maxFeePerGas, 16, tips);
    ghost var limits := PutInt(h.gasLimit, 8, fees);
    IntWritten(w.buf, h.feeIntrinsicGas, 8, limits);
    w.Int(h.feeIntrinsicGas, 8);
    IntWritten(w.buf, h.gasLimit, 8, fees);
    w.Int(h.gasLimit, 8);
    IntWritten(w.buf, h.maxFeePerGas, 16, tips);
    w.Int(h.maxFeePerGas, 16);
    IntWritten(w.buf, h.maxPriorityFeePerGas, 16, rest);
    w.Int(h.maxPriorityFeePerGas, 16);
  }

  method WriteSignatures(w: Writer, sigs: seq<CouncilSignature>, ghost rest: Bytes)
    modifies w
    ensures w.buf + rest == old(w.buf) + PutSignatures(sigs, rest)
  {
    for i := 0 to |sigs|
      invariant w.buf + PutSignatures(sigs[i..], rest) == old(w.buf) + PutSignatures(sigs, rest)
    {
      ghost var after := PutSignatures(sigs[i + 1..], rest);
      assert sigs[i..][1..] == sigs[i + 1..] && sigs[i..][0] == sigs[i];
      IntWritten(w.buf, sigs[i].index, 4, PutBytes(sigs[i].signature, after));
      w.Int(sigs[i].index, 4);
      BytesWritten(w.buf, sigs[i].signature, after);
      w.LengthPrefixed(sigs[i].signature);
    }
  }

  method WriteUpdate(u: GovernanceUpdate) returns (bytes: Bytes)
    ensures bytes == EncodeUpdate(u)
  {
    var w := new Writer();
    ghost var body := UpdateBody(u).1;
    IntWritten([], UpdateBody(u).0, 1, body);
    w.Int(UpdateBody(u).0, 1);
    WriteUpdateBody(w, u);
    return w.buf;
  }

  method WriteUpdateBody(w: Writer, u: GovernanceUpdate)
    modifies w
    ensures w.buf == old(w.buf) + UpdateBody(u).1
  {
    match u
    case SetGasAsset(record) => w.LengthPrefixed(EncodeAsset(record));
    case SetParameter(name, value) =>
      BytesWritten(w.buf, name, PutInt(value, 16, []));
      w.LengthPrefixed(name);
      w.Int(value, 16);
    case SetJwk(iss, jwk, active) =>
      RawWritten(w.buf, iss, jwk + PutBool(active, []));
      w.Raw(iss);
      RawWritten(w.buf, jwk, PutBool(active, []));
      w.Raw(jwk);
      w.Bool(active);
    case SetFeeMarket(floor, target) =>
      IntWritten(w.buf, floor, 16, PutInt(target, 8, []));
      w.Int(floor, 16);
      w.Int(target, 8);
    case SetFeeSplit(split) => w.LengthPrefixed(EncodeSplit(split));
    case DisableGasAsset(asset) => w.Int(asset, 4);
  }

  method WriteGovernance(w: Writer, epoch: nat, update: GovernanceUpdate, sigs: seq<CouncilSignature>)
    modifies w
    ensures w.buf == old(w.buf) + PutGovernance(epoch, EncodeUpdate(update), sigs)
  {
    var bytes := WriteUpdate(update);
    ghost var list := PutSignatureList(sigs);
    IntWritten(w.buf, epoch, 8, PutBytes(bytes, list));
    w.Int(epoch, 8);
    BytesWritten(w.buf, bytes, list);
    w.LengthPrefixed(bytes);
    IntWritten(w.buf, |sigs|, 4, PutSignatures(sigs, []));
    w.Int(|sigs|, 4);
    WriteSignatures(w, sigs, []);
    assert w.buf + [] == w.buf;
  }

  method WritePayload(p: Payload) returns (bytes: Bytes)
    ensures bytes == EncodePayload(p)
  {
    var w := new Writer();
    IntWritten([], PayloadBody(p).0, 1, PayloadBody(p).1);
    w.Int(PayloadBody(p).0, 1);
    WritePayloadBody(w, p);
    return w.buf;
  }

  method WritePayloadBody(w: Writer, p: Payload)
    modifies w
    ensures w.buf == old(w.buf) + PayloadBody(p).1
  {
    match p
    case Transfer(to, asset, amount) =>
      RawWritten(w.buf, to, PutInt(asset, 4, PutInt(amount, 16, [])));
      w.Raw(to);
      IntWritten(w.buf, asset, 4, PutInt(amount, 16, []));
      w.Int(asset, 4);
      w.Int(amount, 16);
    case BindName(channel, id) =>
      IntWritten(w.buf, ChannelTag(channel), 1, id);
      w.Int(ChannelTag(channel), 1);
      w.Raw(id);
    case UnbindName(id) => w.Raw(id);
    case Governance(epoch, update, sigs) => WriteGovernance(w, epoch, update, sigs);
    case DistributeFees(asset, amount, split) =>
      IntWritten(w.buf, asset, 4, PutInt(amount, 16, PutBytes(EncodeSplit(split), [])));
      w.Int(asset, 4);
      IntWritten(w.buf, amount, 16, PutBytes(EncodeSplit(split), []));
      w.Int(amount, 16);
      w.LengthPrefixed(EncodeSplit(split));
  }

  method WriteExtra(w: Writer, extra: Option<Bytes32>, ghost rest: Bytes)
    modifies w
    ensures w.buf + rest == old(w.buf) + PutExtra(extra, rest)
  {
    match extra
    case None =>
      IntWritten(w.buf, 0, 1, rest);
      w.Bool(false);
    case Some(h) =>
      IntWritten(w.buf, 1, 1, h + rest);
      w.Bool(true);
      RawWritten(w.buf, h, rest);
      w.Raw(h);
  }

  method WriteKeyless(w: Writer, k: KeylessSignature)
    modifies w
    ensures w.buf == old(w.buf) + PutKeyless(k)
  {
    ghost var extra := PutExtra(k.extraFieldHash, k.proof);
    ghost var hashes := k.jwtHeaderHash + (k.jwkHash + extra);
    ghost var times := PutInt(k.expDateSecs, 8, PutInt(k.expHorizonSecs, 8, hashes));
    RawWritten(w.buf, k.issHash, k.idc + (k.ephemeralPublicKey + (k.ephemeralSignature + times)));
    w.Raw(k.issHash);
    RawWritten(w.buf, k.idc, k.ephemeralPublicKey + (k.ephemeralSignature + times));
    w.Raw(k.idc);
    RawWritten(w.buf, k.ephemeralPublicKey, k.ephemeralSignature + times);
    w.Raw(k.ephemeralPublicKey);
    RawWritten(w.buf, k.ephemeralSignature, times);
    w.Raw(k.ephemeralSignature);
    IntWritten(w.buf, k.expDateSecs, 8, PutInt(k.expHorizonSecs, 8, hashes));
    w.Int(k.expDateSecs, 8);
    IntWritten(w.buf, k.expHorizonSecs, 8, hashes);
    w.Int(k.expHorizonSecs, 8);
    RawWritten(w.buf, k.jwtHeaderHash, k.jwkHash + extra);
    w.Raw(k.jwtHeaderHash);
    RawWritten(w.buf, k.jwkHash, extra);
    w.Raw(k.jwkHash);
    WriteExtra(w, k.extraFieldHash, k.proof);
    w.Raw(k.proof);
  }

  method WriteAuthenticator(w: Writer, a: Authenticator)
    modifies w
    ensures w.buf == old(w.buf) + PutAuthenticator(a)
  {
    match a
    case Ed25519Auth(key, sig) =>
      IntWritten(w.buf, 0, 1, key + sig);
      w.Int(0, 1);
      RawWritten(w.buf, key, sig);
      w.Raw(key);
      w.Raw(sig);
    case Keyless(k) =>
      IntWritten(w.buf, 1, 1, PutKeyless(k));
      w.Int(1, 1);
      WriteKeyless(w, k);
  }

  /** `encode`: the head, the payload behind its length, the authenticator. */
  method Encode(t: Transaction) returns (bytes: Bytes)
    ensures bytes == EncodeTx(t)
  {
    var w := new Writer();
    var payload := WritePayload(t.payload);
    ghost var auth := PutAuthenticator(t.authenticator);
    WriteHead(w, HeadOf(t), PutBytes(payload, auth));
    BytesWritten(w.buf, payload, auth);
    w.LengthPrefixed(payload);
    WriteAuthenticator(w, t.authenticator);
    return w.buf;
  }
}
