/** Transactions and their canonical wire format, the bytes batches publish and L1 decodes. */
module Wire {
  import opened Digests
  import opened Codec
  import opened Records
  import opened Gas
  import opened Governance

  const MAX_TRANSACTION_BYTES: nat := 8 * 1024
  const MAX_COUNCIL_SIGNATURES: nat := 32

  datatype Channel = Email | Phone | Handle

  datatype Payload =
    | Transfer(to: Bytes32, asset: nat, amount: nat)
    | BindName(channel: Channel, identifier: Bytes32)
    | UnbindName(identifier: Bytes32)
    | Governance(epoch: nat, update: GovernanceUpdate, signatures: seq<CouncilSignature>)
    | DistributeFees(asset: nat, amount: nat, split: FeeSplit)

  datatype KeylessSignature = KeylessSignature(
    issHash: Bytes32, idc: Bytes32, ephemeralPublicKey: Bytes32, ephemeralSignature: Bytes64,
    expDateSecs: nat, expHorizonSecs: nat, jwtHeaderHash: Bytes32, jwkHash: Bytes32,
    extraFieldHash: Option<Bytes32>, proof: Bytes128)

  datatype Authenticator = Ed25519Auth(publicKey: Bytes32, signature: Bytes64) | Keyless(sig: KeylessSignature)

  datatype Transaction = Transaction(
    sender: Bytes32, nonce: nat, feeAsset: nat, feeRate: nat, feeIntrinsicGas: nat, gasLimit: nat,
    maxFeePerGas: nat, maxPriorityFeePerGas: nat, payload: Payload, authenticator: Authenticator)

  datatype WireError = MalformedTx(decode: DecodeError) | TooLarge(size: nat) | TooManySignatures

  // ----- writing

  function ChannelTag(c: Channel): nat {
    match c
    case Email => 0
    case Phone => 1
    case Handle => 2
  }

  /** The bytes of an update behind its tag. */
  function UpdateBody(u: GovernanceUpdate): (Byte, Bytes) {
    match u
    case SetGasAsset(record) => (0, PutBytes(EncodeAsset(record), []))
    case SetParameter(name, value) => (1, PutBytes(name, PutInt(value, 16, [])))
    case SetJwk(iss, jwk, active) => (2, iss + (jwk + PutBool(active, [])))
    case SetFeeMarket(floor, target) => (3, PutInt(floor, 16, PutInt(target, 8, [])))
    case SetFeeSplit(split) => (4, PutBytes(EncodeSplit(split), []))
    case DisableGasAsset(asset) => (5, PutInt(asset, 4, []))
  }

  function EncodeUpdate(u: GovernanceUpdate): Bytes {
    PutInt(UpdateBody(u).0, 1, UpdateBody(u).1)
  }

  function PutSignatures(sigs: seq<CouncilSignature>, rest: Bytes): Bytes {
    if sigs == [] then rest
    else PutInt(sigs[0].index, 4, PutBytes(sigs[0].signature, PutSignatures(sigs[1..], rest)))
  }

  function PutSignatureList(sigs: seq<CouncilSignature>): Bytes {
    PutInt(|sigs|, 4, PutSignatures(sigs, []))
  }

  function PutGovernance(epoch: nat, update: Bytes, sigs: seq<CouncilSignature>): Bytes {
    PutInt(epoch, 8, PutBytes(update, PutSignatureList(sigs)))
  }

  /** The tag of a payload and the bytes behind it. */
  function PayloadBody(p: Payload): (Byte, Bytes) {
    match p
    case Transfer(to, asset, amount) => (0, to + PutInt(asset, 4, PutInt(amount, 16, [])))
    case BindName(channel, id) => (1, PutInt(ChannelTag(channel), 1, id))
    case UnbindName(id) => (2, id)
    case Governance(epoch, update, sigs) => (3, PutGovernance(epoch, EncodeUpdate(update), sigs))
    case DistributeFees(asset, amount, split) =>
      (4, PutInt(asset, 4, PutInt(amount, 16, PutBytes(EncodeSplit(split), []))))
  }

  function EncodePayload(p: Payload): Bytes {
    PutInt(PayloadBody(p).0, 1, PayloadBody(p).1)
  }

  function PutExtra(extra: Option<Bytes32>, rest: Bytes): Bytes {
    match extra
    case None => PutInt(0, 1, rest)
    case Some(h) => PutInt(1, 1, h + rest)
  }

  function PutKeyless(k: KeylessSignature): Bytes {
    k.issHash + (k.idc + (k.ephemeralPublicKey + (k.ephemeralSignature +
      PutInt(k.expDateSecs, 8, PutInt(k.expHorizonSecs, 8,
        k.jwtHeaderHash + (k.jwkHash + PutExtra(k.extraFieldHash, k.proof)))))))
  }

  function PutAuthenticator(a: Authenticator): Bytes {
    match a
    case Ed25519Auth(key, sig) => PutInt(0, 1, key + sig)
    case Keyless(k) => PutInt(1, 1, PutKeyless(k))
  }

  /** The fixed-width fields: who sends, and on what fee terms. */
  datatype Head = Head(
    sender: Bytes32, nonce: nat, feeAsset: nat, feeRate: nat, feeIntrinsicGas: nat, gasLimit: nat,
    maxFeePerGas: nat, maxPriorityFeePerGas: nat)

  function HeadOf(t: Transaction): Head {
    Head(t.sender, t.nonce, t.feeAsset, t.feeRate, t.feeIntrinsicGas, t.gasLimit, t.maxFeePerGas, t.maxPriorityFeePerGas)
  }

  function PutHead(h: Head, rest: Bytes): Bytes {
    h.sender + PutInt(h.nonce, 8, PutInt(h.feeAsset, 4, PutInt(h.feeRate, 16, PutPrices(h, rest))))
  }

  function PutPrices(h: Head, rest: Bytes): Bytes {
    PutInt(h.feeIntrinsicGas, 8, PutInt(h.gasLimit, 8,
      PutInt(h.maxFeePerGas, 16, PutInt(h.maxPriorityFeePerGas, 16, rest))))
  }

  function EncodeTx(t: Transaction): Bytes {
    PutHead(HeadOf(t), PutBytes(EncodePayload(t.payload), PutAuthenticator(t.authenticator)))
  }

  // ----- reading

  function ReadSetGasAsset(s: Bytes): Read<GovernanceUpdate> {
    var (bytes, rest) :- ReadBytes(s);
    match DecodeAsset(bytes)
    case None => Bad(UnknownVariant(0))
    case Some(record) => if EncodeAsset(record) != bytes then Bad(UnknownVariant(0)) else Got(SetGasAsset(record), rest)
  }

  function ReadSetParameter(s: Bytes): Read<GovernanceUpdate> {
    var (name, s1) :- ReadString(s);
    var (value, rest) :- ReadInt(s1, 16);
    Got(SetParameter(name, value), rest)
  }

  function ReadSetJwk(s: Bytes): Read<GovernanceUpdate> {
    var (iss, s1) :- TakeBytes(s, 32);
    var (jwk, s2) :- TakeBytes(s1, 32);
    var (active, rest) :- ReadBool(s2);
    Got(SetJwk(iss, jwk, active), rest)
  }

  function ReadSetFeeMarket(s: Bytes): Read<GovernanceUpdate> {
    var (floor, s1) :- ReadInt(s, 16);
    var (target, rest) :- ReadInt(s1, 8);
    Got(SetFeeMarket(floor, target), rest)
  }

  function ReadSetFeeSplit(s: Bytes): Read<GovernanceUpdate> {
    var (split, rest) :- ReadWireSplit(s, 4);
    Got(SetFeeSplit(split), rest)
  }

  function ReadDisableGasAsset(s: Bytes): Read<GovernanceUpdate> {
    var (asset, rest) :- ReadInt(s, 4);
    Got(DisableGasAsset(asset), rest)
  }

  function ReadUpdate(s: Bytes): Read<GovernanceUpdate> {
    var (tag, s1) :- ReadInt(s, 1);
    if tag == 0 then ReadSetGasAsset(s1)
    else if tag == 1 then ReadSetParameter(s1)
    else if tag == 2 then ReadSetJwk(s1)
    else if tag == 3 then ReadSetFeeMarket(s1)
    else if tag == 4 then ReadSetFeeSplit(s1)
    else if tag == 5 then ReadDisableGasAsset(s1)
    else Bad(UnknownVariant(tag))
  }

  /** A length-prefixed fee split, canonical or refused. */
  function ReadWireSplit(s: Bytes, variant: nat): Read<FeeSplit> {
    var (bytes, rest) :- ReadBytes(s);
    match DecodeSplit(bytes)
    case None => Bad(UnknownVariant(variant))
    case Some(split) => if EncodeSplit(split) != bytes then Bad(UnknownVariant(variant)) else Got(split, rest)
  }

  function ReadSignature(s: Bytes): Read<CouncilSignature> {
    var (index, s1) :- ReadInt(s, 4);
    var (sig, rest) :- ReadBytes(s1);
    if |sig| != 64 then Bad(LengthOverflow) else Got(CouncilSignature(index, sig), rest)
  }

  function ReadSignatures(s: Bytes, count: nat): Read<seq<CouncilSignature>>
    decreases count
  {
    if count == 0 then Got([], s)
    else
      var (sig, s1) :- ReadSignature(s);
      var (sigs, rest) :- ReadSignatures(s1, count - 1);
      Got([sig] + sigs, rest)
  }

  /** The reader's `finish` on an inner buffer. */
  function Finished<T>(r: Read<T>): Read<T> {
    match r
    case Got(v, rest) => if rest == [] then r else Bad(TrailingBytes(|rest|))
    case Bad(_) => r
  }

  function ReadGovernance(s: Bytes): Read<Payload> {
    var (epoch, s1) :- ReadInt(s, 8);
    var (inner, s2) :- ReadBytes(s1);
    var (update, _) :- Finished(ReadUpdate(inner));
    var (sigs, rest) :- ReadSignatureList(s2);
    Got(Governance(epoch, update, sigs), rest)
  }

  function ReadSignatureList(s: Bytes): Read<seq<CouncilSignature>> {
    var (count, s1) :- ReadInt(s, 4);
    if count > MAX_COUNCIL_SIGNATURES then Bad(SignatureLimit) else ReadSignatures(s1, count)
  }

  function ReadTransfer(s: Bytes): Read<Payload> {
    var (to, s1) :- TakeBytes(s, 32);
    var (asset, s2) :- ReadInt(s1, 4);
    var (amount, rest) :- ReadInt(s2, 16);
    Got(Transfer(to, asset, amount), rest)
  }

  function ReadBindName(s: Bytes): Read<Payload> {
    var (d, s1) :- ReadInt(s, 1);
    if d > 2 then Bad(UnknownVariant(d))
    else
      var (id, rest) :- TakeBytes(s1, 32);
      Got(BindName(if d == 0 then Email else if d == 1 then Phone else Handle, id), rest)
  }

  function ReadUnbindName(s: Bytes): Read<Payload> {
    var (id, rest) :- TakeBytes(s, 32);
    Got(UnbindName(id), rest)
  }

  function ReadDistributeFees(s: Bytes): Read<Payload> {
    var (asset, s1) :- ReadInt(s, 4);
    var (amount, s2) :- ReadInt(s1, 16);
    var (split, rest) :- ReadWireSplit(s2, 4);
    Got(DistributeFees(asset, amount, split), rest)
  }

  function ReadPayload(s: Bytes): Read<Payload> {
    var (tag, s1) :- ReadInt(s, 1);
    if tag == 0 then ReadTransfer(s1)
    else if tag == 1 then ReadBindName(s1)
    else if tag == 2 then ReadUnbindName(s1)
    else if tag == 3 then ReadGovernance(s1)
    else if tag == 4 then ReadDistributeFees(s1)
    else Bad(UnknownVariant(tag))
  }

  function ReadExtra(s: Bytes): Read<Option<Bytes32>> {
    var (flag, s1) :- ReadBool(s);
    if flag then
      var (h, s2) :- TakeBytes(s1, 32);
      Got(Some(h), s2)
    else Got(None, s1)
  }

  function ReadKeyless(s: Bytes): Read<KeylessSignature> {
    var (iss, s1) :- TakeBytes(s, 32);
    var (idc, s2) :- TakeBytes(s1, 32);
    var (epk, s3) :- TakeBytes(s2, 32);
    var (esig, s4) :- TakeBytes(s3, 64);
    ReadKeylessRest(iss, idc, epk, esig, s4)
  }

  /** The part of a keyless signature behind its keys. */
  function ReadKeylessRest(iss: Bytes32, idc: Bytes32, epk: Bytes32, esig: Bytes64, s: Bytes): Read<KeylessSignature> {
    var (expDate, s5) :- ReadInt(s, 8);
    var (horizon, s6) :- ReadInt(s5, 8);
    var (header, s7) :- TakeBytes(s6, 32);
    var (jwk, s8) :- TakeBytes(s7, 32);
    var (extra, s9) :- ReadExtra(s8);
    var (proof, s10) :- TakeBytes(s9, 128);
    Got(KeylessSignature(iss, idc, epk, esig, expDate, horizon, header, jwk, extra, proof), s10)
  }

  function ReadAuthenticator(s: Bytes): Read<Authenticator> {
    var (tag, s1) :- ReadInt(s, 1);
    if tag == 0 then
      var (key, s2) :- TakeBytes(s1, 32);
      var (sig, s3) :- TakeBytes(s2, 64);
      Got(Ed25519Auth(key, sig), s3)
    else if tag == 1 then
      var (k, s2) :- ReadKeyless(s1);
      Got(Keyless(k), s2)
    else Bad(UnknownVariant(tag))
  }

  function ReadPrices(s: Bytes): Read<(nat, nat, nat, nat)> {
    var (intrinsic, s1) :- ReadInt(s, 8);
    var (gasLimit, s2) :- ReadInt(s1, 8);
    var (maxFee, s3) :- ReadInt(s2, 16);
    var (maxPriority, rest) :- ReadInt(s3, 16);
    Got((intrinsic, gasLimit, maxFee, maxPriority), rest)
  }

  function ReadHead(s: Bytes): Read<Head> {
    var (sender, s1) :- TakeBytes(s, 32);
    var (nonce, s2) :- ReadInt(s1, 8);
    var (feeAsset, s3) :- ReadInt(s2, 4);
    var (feeRate, s4) :- ReadInt(s3, 16);
    var (p, rest) :- ReadPrices(s4);
    Got(Head(sender, nonce, feeAsset, feeRate, p.0, p.1, p.2, p.3), rest)
  }

  function Assemble(h: Head, payload: Payload, auth: Authenticator): Transaction {
    Transaction(h.sender, h.nonce, h.feeAsset, h.feeRate, h.feeIntrinsicGas, h.gasLimit,
                h.maxFeePerGas, h.maxPriorityFeePerGas, payload, auth)
  }

  function ReadTx(s: Bytes): Read<Transaction> {
    var (head, s1) :- ReadHead(s);
    var (inner, s2) :- ReadBytes(s1);
    var (payload, _) :- Finished(ReadPayload(inner));
    var (auth, rest) :- ReadAuthenticator(s2);
    Got(Assemble(head, payload, auth), rest)
  }

  function DecodeTx(s: Bytes): Result<Transaction, WireError> {
    if |s| > MAX_TRANSACTION_BYTES then Err(TooLarge(|s|))
    else match Finished(ReadTx(s))
      case Bad(e) => Err(if e.SignatureLimit? then TooManySignatures else MalformedTx(e))
      case Got(t, _) => if EncodeTx(t) != s then Err(MalformedTx(UnknownVariant(0xff))) else Ok(t)
  }

  // ----- what fits the format

  ghost predicate UpdateFits(u: GovernanceUpdate) {
    match u
    case SetGasAsset(record) => AssetFits(record)
    case SetParameter(name, value) => |name| <= U32_MAX && IsString(name) && value <= U128_MAX
    case SetJwk(_, _, _) => true
    case SetFeeMarket(floor, target) => floor <= U128_MAX && target <= U64_MAX
    case SetFeeSplit(split) => SplitFits(split)
    case DisableGasAsset(asset) => asset <= U32_MAX
  }

  ghost predicate SignaturesFit(sigs: seq<CouncilSignature>) {
    |sigs| <= MAX_COUNCIL_SIGNATURES && forall i :: 0 <= i < |sigs| ==> sigs[i].index <= U32_MAX
  }

  ghost predicate PayloadFits(p: Payload) {
    match p
    case Transfer(_, asset, amount) => asset <= U32_MAX && amount <= U128_MAX
    case BindName(_, _) => true
    case UnbindName(_) => true
    case Governance(epoch, update, sigs) => epoch <= U64_MAX && UpdateFits(update) && SignaturesFit(sigs)
    case DistributeFees(asset, amount, split) => asset <= U32_MAX && amount <= U128_MAX && SplitFits(split)
  }

  ghost predicate HeadFits(h: Head) {
    && h.nonce <= U64_MAX && h.feeAsset <= U32_MAX && h.feeRate <= U128_MAX
    && h.feeIntrinsicGas <= U64_MAX && h.gasLimit <= U64_MAX
    && h.maxFeePerGas <= U128_MAX && h.maxPriorityFeePerGas <= U128_MAX
  }

  ghost predicate AuthenticatorFits(a: Authenticator) {
    a.Keyless? ==> a.sig.expDateSecs <= U64_MAX && a.sig.expHorizonSecs <= U64_MAX
  }

  /** A transaction of the source's field types, within the signature, beneficiary and size limits. */
  ghost predicate TxFits(t: Transaction) {
    && HeadFits(HeadOf(t))
    && PayloadFits(t.payload)
    && AuthenticatorFits(t.authenticator)
    && |EncodeTx(t)| <= MAX_TRANSACTION_BYTES
  }

  // ----- encode, then decode

  lemma ReadPutSetGasAsset(u: GovernanceUpdate)
    requires u.SetGasAsset? && AssetFits(u.record) && |EncodeAsset(u.record)| <= U32_MAX
    ensures ReadUpdate(EncodeUpdate(u)) == Got(u, [])
  {
    Widths();
    ReadPutInt(0, 1, UpdateBody(u).1);
    ReadPutBytes(EncodeAsset(u.record), []);
    AssetRoundTrip(u.record);
  }

  lemma ReadPutSetParameter(u: GovernanceUpdate)
    requires u.SetParameter? && UpdateFits(u)
    ensures ReadUpdate(EncodeUpdate(u)) == Got(u, [])
  {
    Widths();
    ReadPutInt(1, 1, UpdateBody(u).1);
    ReadPutString(u.name, PutInt(u.value, 16, []));
    ReadPutInt(u.value, 16, []);
  }

  lemma ReadPutSetJwk(u: GovernanceUpdate)
    requires u.SetJwk?
    ensures ReadUpdate(EncodeUpdate(u)) == Got(u, [])
  {
    Widths();
    ReadPutInt(2, 1, UpdateBody(u).1);
    ReadPutRaw(u.issHash, u.jwkHash + PutBool(u.active, []));
    ReadPutRaw(u.jwkHash, PutBool(u.active, []));
    ReadPutBool(u.active, []);
  }

  lemma ReadPutSetFeeMarket(u: GovernanceUpdate)
    requires u.SetFeeMarket? && UpdateFits(u)
    ensures ReadUpdate(EncodeUpdate(u)) == Got(u, [])
  {
    Widths();
    ReadPutInt(3, 1, UpdateBody(u).1);
    ReadPutInt(u.floor, 16, PutInt(u.target, 8, []));
    ReadPutInt(u.target, 8, []);
  }

  lemma ReadPutSetFeeSplit(u: GovernanceUpdate)
    requires u.SetFeeSplit? && UpdateFits(u) && |EncodeSplit(u.split)| <= MAX_TRANSACTION_BYTES
    ensures ReadUpdate(EncodeUpdate(u)) == Got(u, [])
  {
    Widths();
    ReadPutInt(4, 1, UpdateBody(u).1);
    ReadPutWireSplit(u.split, [], 4);
  }

  lemma ReadPutDisableGasAsset(u: GovernanceUpdate)
    requires u.DisableGasAsset? && UpdateFits(u)
    ensures ReadUpdate(EncodeUpdate(u)) == Got(u, [])
  {
    Widths();
    ReadPutInt(5, 1, UpdateBody(u).1);
    ReadPutInt(u.asset, 4, []);
  }

  lemma ReadPutUpdate(u: GovernanceUpdate)
    requires UpdateFits(u) && |EncodeUpdate(u)| <= MAX_TRANSACTION_BYTES
    ensures ReadUpdate(EncodeUpdate(u)) == Got(u, [])
  {
    match u
    case SetGasAsset(record) => ReadPutSetGasAsset(u);
    case SetParameter(name, value) => ReadPutSetParameter(u);
    case SetJwk(iss, jwk, active) => ReadPutSetJwk(u);
    case SetFeeMarket(floor, target) => ReadPutSetFeeMarket(u);
    case SetFeeSplit(split) => ReadPutSetFeeSplit(u);
    case DisableGasAsset(asset) => ReadPutDisableGasAsset(u);
  }

  lemma ReadPutWireSplit(split: FeeSplit, rest: Bytes, variant: nat)
    requires SplitFits(split) && |EncodeSplit(split)| <= MAX_TRANSACTION_BYTES
    ensures ReadWireSplit(PutBytes(EncodeSplit(split), rest), variant) == Got(split, rest)
  {
    ReadPutBytes(EncodeSplit(split), rest);
    SplitRoundTrip(split);
  }

  lemma ReadPutSignature(sig: CouncilSignature, tail: Bytes)
    requires sig.index <= U32_MAX
    ensures ReadSignature(PutInt(sig.index, 4, PutBytes(sig.signature, tail))) == Got(sig, tail)
  {
    Widths();
    ReadPutInt(sig.index, 4, PutBytes(sig.signature, tail));
    ReadPutBytes(sig.signature, tail);
  }

  lemma {:induction false} ReadPutSignatures(sigs: seq<CouncilSignature>, rest: Bytes)
    requires forall i :: 0 <= i < |sigs| ==> sigs[i].index <= U32_MAX
    ensures ReadSignatures(PutSignatures(sigs, rest), |sigs|) == Got(sigs, rest)
    decreases |sigs|
  {
    if sigs != [] {
      ReadPutSignature(sigs[0], PutSignatures(sigs[1..], rest));
      ReadPutSignatures(sigs[1..], rest);
      assert [sigs[0]] + sigs[1..] == sigs;
    }
  }

  lemma ReadPutSignatureList(sigs: seq<CouncilSignature>)
    requires SignaturesFit(sigs)
    ensures ReadSignatureList(PutSignatureList(sigs)) == Got(sigs, [])
  {
    Widths();
    ReadPutInt(|sigs|, 4, PutSignatures(sigs, []));
    ReadPutSignatures(sigs, []);
  }

  lemma ReadPutGovernance(epoch: nat, bytes: Bytes, update: GovernanceUpdate, sigs: seq<CouncilSignature>)
    requires epoch <= U64_MAX && SignaturesFit(sigs) && |bytes| <= U32_MAX && ReadUpdate(bytes) == Got(update, [])
    ensures ReadGovernance(PutGovernance(epoch, bytes, sigs)) == Got(Governance(epoch, update, sigs), [])
  {
    Widths();
    ReadPutInt(epoch, 8, PutBytes(bytes, PutSignatureList(sigs)));
    ReadPutBytes(bytes, PutSignatureList(sigs));
    ReadPutSignatureList(sigs);
  }

  lemma GovernanceTag(body: Bytes, p: Payload)
    requires ReadGovernance(body) == Got(p, [])
    ensures ReadPayload(PutInt(3, 1, body)) == Got(p, [])
  {
    Widths();
    ReadPutInt(3, 1, body);
  }

  /** Any part of an encoding is no longer than the whole. */
  lemma PartsFit(p: Payload)
    requires |EncodePayload(p)| <= MAX_TRANSACTION_BYTES
    ensures p.Governance? ==> |EncodeUpdate(p.update)| <= MAX_TRANSACTION_BYTES
    ensures p.DistributeFees? ==> |EncodeSplit(p.split)| <= MAX_TRANSACTION_BYTES
  {
  }

  lemma ReadPutTransfer(p: Payload)
    requires p.Transfer? && PayloadFits(p)
    ensures ReadPayload(EncodePayload(p)) == Got(p, [])
  {
    Widths();
    ReadPutInt(0, 1, PayloadBody(p).1);
    ReadPutRaw(p.to, PutInt(p.asset, 4, PutInt(p.amount, 16, [])));
    ReadPutInt(p.asset, 4, PutInt(p.amount, 16, []));
    ReadPutInt(p.amount, 16, []);
  }

  lemma ReadPutBindName(p: Payload)
    requires p.BindName?
    ensures ReadPayload(EncodePayload(p)) == Got(p, [])
  {
    Widths();
    ReadPutName(p.channel, p.identifier);
    var body := PayloadBody(p).1;
    assert ReadInt(PutInt(1, 1, body), 1) == Got(1, body) by { ReadPutInt(1, 1, body); }
  }

  lemma ReadPutName(channel: Channel, id: Bytes32)
    ensures ReadBindName(PutInt(ChannelTag(channel), 1, id)) == Got(BindName(channel, id), [])
  {
    Widths();
    ReadPutInt(ChannelTag(channel), 1, id);
    ReadPutRaw(id, []);
    assert id + [] == id;
  }

  lemma ReadPutUnbindName(p: Payload)
    requires p.UnbindName?
    ensures ReadPayload(EncodePayload(p)) == Got(p, [])
  {
    Widths();
    ReadPutInt(2, 1, PayloadBody(p).1);
    ReadPutRaw(p.identifier, []);
    assert p.identifier + [] == p.identifier;
  }

  lemma ReadPutGovernancePayload(p: Payload)
    requires p.Governance? && PayloadFits(p) && |EncodeUpdate(p.update)| <= MAX_TRANSACTION_BYTES
    ensures ReadPayload(EncodePayload(p)) == Got(p, [])
  {
    ReadPutUpdate(p.update);
    ReadPutGovernance(p.epoch, EncodeUpdate(p.update), p.update, p.signatures);
    GovernanceTag(PayloadBody(p).1, p);
  }

  lemma ReadPutDistributeFees(p: Payload)
    requires p.DistributeFees? && PayloadFits(p) && |EncodeSplit(p.split)| <= MAX_TRANSACTION_BYTES
    ensures ReadPayload(EncodePayload(p)) == Got(p, [])
  {
    Widths();
    ReadPutDistribution(p.asset, p.amount, p.split);
    var body := PayloadBody(p).1;
    assert body == PutInt(p.asset, 4, PutInt(p.amount, 16, PutBytes(EncodeSplit(p.split), [])));
    assert ReadInt(PutInt(4, 1, body), 1) == Got(4, body) by { ReadPutInt(4, 1, body); }
  }

  lemma ReadPutDistribution(asset: nat, amount: nat, split: FeeSplit)
    requires asset <= U32_MAX && amount <= U128_MAX && SplitFits(split) && |EncodeSplit(split)| <= MAX_TRANSACTION_BYTES
    ensures ReadDistributeFees(PutInt(asset, 4, PutInt(amount, 16, PutBytes(EncodeSplit(split), []))))
         == Got(DistributeFees(asset, amount, split), [])
  {
    Widths();
    var s3 := PutBytes(EncodeSplit(split), []);
    ReadPutInt(asset, 4, PutInt(amount, 16, s3));
    ReadPutInt(amount, 16, s3);
    ReadPutWireSplit(split, [], 4);
  }

  lemma ReadPutPayload(p: Payload)
    requires PayloadFits(p) && |EncodePayload(p)| <= MAX_TRANSACTION_BYTES
    ensures ReadPayload(EncodePayload(p)) == Got(p, [])
  {
    PartsFit(p);
    match p
    case Transfer(to, asset, amount) => ReadPutTransfer(p);
    case BindName(channel, id) => ReadPutBindName(p);
    case UnbindName(id) => ReadPutUnbindName(p);
    case Governance(epoch, update, sigs) => ReadPutGovernancePayload(p);
    case DistributeFees(asset, amount, split) => ReadPutDistributeFees(p);
  }

  lemma ReadPutExtra(extra: Option<Bytes32>, rest: Bytes)
    ensures ReadExtra(PutExtra(extra, rest)) == Got(extra, rest)
  {
    match extra
    case None => ReadPutBool(false, rest);
    case Some(h) =>
      ReadPutBool(true, h + rest);
      ReadPutRaw(h, rest);
  }

  lemma ReadPutKeyless(k: KeylessSignature)
    requires k.expDateSecs <= U64_MAX && k.expHorizonSecs <= U64_MAX
    ensures ReadKeyless(PutKeyless(k)) == Got(k, [])
  {
    Widths();
    var s9: Bytes := k.proof;
    var s8 := PutExtra(k.extraFieldHash, s9);
    var s7 := k.jwkHash + s8;
    var s6 := k.jwtHeaderHash + s7;
    var s5 := PutInt(k.expHorizonSecs, 8, s6);
    var s4 := PutInt(k.expDateSecs, 8, s5);
    var s3 := k.ephemeralSignature + s4;
    var s2 := k.ephemeralPublicKey + s3;
    var s1 := k.idc + s2;
    ReadPutRaw(k.issHash, s1);
    ReadPutRaw(k.idc, s2);
    ReadPutRaw(k.ephemeralPublicKey, s3);
    ReadPutRaw(k.ephemeralSignature, s4);
    ReadPutInt(k.expDateSecs, 8, s5);
    ReadPutInt(k.expHorizonSecs, 8, s6);
    ReadPutRaw(k.jwtHeaderHash, s7);
    ReadPutRaw(k.jwkHash, s8);
    ReadPutExtra(k.extraFieldHash, s9);
    assert k.proof + [] == k.proof;
    ReadPutRaw(k.proof, []);
  }

  lemma ReadPutAuthenticator(a: Authenticator)
    requires a.Keyless? ==> a.sig.expDateSecs <= U64_MAX && a.sig.expHorizonSecs <= U64_MAX
    ensures ReadAuthenticator(PutAuthenticator(a)) == Got(a, [])
  {
    Widths();
    match a
    case Ed25519Auth(key, sig) =>
      ReadPutInt(0, 1, key + sig);
      ReadPutRaw(key, sig);
      assert sig + [] == sig;
      ReadPutRaw(sig, []);
    case Keyless(k) =>
      ReadPutInt(1, 1, PutKeyless(k));
      ReadPutKeyless(k);
  }

  lemma ReadPutPrices(h: Head, rest: Bytes)
    requires HeadFits(h)
    ensures ReadPrices(PutPrices(h, rest))
         == Got((h.feeIntrinsicGas, h.gasLimit, h.maxFeePerGas, h.maxPriorityFeePerGas), rest)
  {
    Widths();
    var s3 := PutInt(h.maxPriorityFeePerGas, 16, rest);
    var s2 := PutInt(h.maxFeePerGas, 16, s3);
    var s1 := PutInt(h.gasLimit, 8, s2);
    ReadPutInt(h.feeIntrinsicGas, 8, s1);
    ReadPutInt(h.gasLimit, 8, s2);
    ReadPutInt(h.maxFeePerGas, 16, s3);
    ReadPutInt(h.maxPriorityFeePerGas, 16, rest);
  }

  lemma ReadPutHead(h: Head, rest: Bytes)
    requires HeadFits(h)
    ensures ReadHead(PutHead(h, rest)) == Got(h, rest)
  {
    Widths();
    var s4 := PutPrices(h, rest);
    var s3 := PutInt(h.feeRate, 16, s4);
    var s2 := PutInt(h.feeAsset, 4, s3);
    var s1 := PutInt(h.nonce, 8, s2);
    ReadPutRaw(h.sender, s1);
    ReadPutInt(h.nonce, 8, s2);
    ReadPutInt(h.feeAsset, 4, s3);
    ReadPutInt(h.feeRate, 16, s4);
    ReadPutPrices(h, rest);
  }

  lemma PayloadWithin(t: Transaction)
    ensures |EncodePayload(t.payload)| <= |EncodeTx(t)|
  {
    var tail := PutBytes(EncodePayload(t.payload), PutAuthenticator(t.authenticator));
    assert |tail| >= |EncodePayload(t.payload)|;
    assert |PutPrices(HeadOf(t), tail)| >= |tail|;
  }

  /** Every transaction within the limits survives encoding and decoding. */
  lemma WireRoundTrip(t: Transaction)
    requires TxFits(t)
    ensures DecodeTx(EncodeTx(t)) == Ok(t)
  {
    PayloadWithin(t);
    var payload, auth := EncodePayload(t.payload), PutAuthenticator(t.authenticator);
    ReadPutHead(HeadOf(t), PutBytes(payload, auth));
    ReadPutBytes(payload, auth);
    ReadPutPayload(t.payload);
    ReadPutAuthenticator(t.authenticator);
  }

  // ----- decode, then encode

  /** An integer that was read fits its width. */
  lemma ReadIntFits(s: Bytes, w: nat)
    requires ReadInt(s, w).Got?
    ensures w == 4 ==> ReadInt(s, w).value <= U32_MAX
    ensures w == 8 ==> ReadInt(s, w).value <= U64_MAX
    ensures w == 16 ==> ReadInt(s, w).value <= U128_MAX
  {
    Widths();
    PutReadInt(s, w);
  }

  lemma ReadAssetFits(s: Bytes)
    requires DecodeAsset(s).Some? && EncodeAsset(DecodeAsset(s).value) == s && |s| <= U32_MAX
    ensures AssetFits(DecodeAsset(s).value)
  {
    ReadIntFits(s, 4);
    var s1 := ReadInt(s, 4).rest;
    LossyIsString(ReadBytes(s1).value);
    var s2 := ReadString(s1).rest;
    ReadIntFits(s2, 16);
    ReadIntFits(ReadInt(s2, 16).rest, 8);
    var a := DecodeAsset(s).value;
    assert |EncodeAsset(a)| >= |a.symbol|;
  }

  lemma ReadSetParameterFits(s: Bytes)
    requires ReadSetParameter(s).Got?
    ensures IsString(ReadSetParameter(s).value.name) && ReadSetParameter(s).value.value <= U128_MAX
  {
    LossyIsString(ReadBytes(s).value);
    ReadIntFits(ReadString(s).rest, 16);
  }

  lemma ReadSetFeeMarketFits(s: Bytes)
    requires ReadSetFeeMarket(s).Got?
    ensures UpdateFits(ReadSetFeeMarket(s).value)
  {
    ReadIntFits(s, 16);
    ReadIntFits(ReadInt(s, 16).rest, 8);
  }

  lemma ReadUpdateFits(s: Bytes)
    requires ReadUpdate(s).Got? && |s| <= U32_MAX
    ensures var u := ReadUpdate(s).value;
            (u.SetParameter? && |u.name| > U32_MAX) || UpdateFits(u)
  {
    var tag, s1 := ReadInt(s, 1).value, ReadInt(s, 1).rest;
    if tag == 0 {
      ReadAssetFits(ReadBytes(s1).value);
    } else if tag == 1 {
      ReadSetParameterFits(s1);
    } else if tag == 3 {
      ReadSetFeeMarketFits(s1);
    } else if tag == 4 {
      SplitCanonical(ReadBytes(s1).value);
    } else if tag == 5 {
      ReadIntFits(s1, 4);
    }
  }

  lemma ReadSignatureFits(s: Bytes)
    requires ReadSignature(s).Got?
    ensures ReadSignature(s).value.index <= U32_MAX
  {
    ReadIntFits(s, 4);
  }

  lemma {:induction false} ReadSignaturesFit(s: Bytes, count: nat)
    requires ReadSignatures(s, count).Got?
    ensures var sigs := ReadSignatures(s, count).value;
            |sigs| == count && forall i :: 0 <= i < |sigs| ==> sigs[i].index <= U32_MAX
    decreases count
  {
    if count > 0 {
      ReadSignatureFits(s);
      ReadSignaturesFit(ReadSignature(s).rest, count - 1);
    }
  }

  lemma ReadGovernanceFits(s: Bytes)
    requires ReadGovernance(s).Got? && |s| <= U32_MAX
    requires |EncodePayload(ReadGovernance(s).value)| <= U32_MAX
    ensures PayloadFits(ReadGovernance(s).value)
  {
    ReadIntFits(s, 8);
    var s1 := ReadInt(s, 8).rest;
    ReadUpdateFits(ReadBytes(s1).value);
    var s2 := ReadBytes(s1).rest;
    ReadSignaturesFit(ReadInt(s2, 4).rest, ReadInt(s2, 4).value);
    assert ReadSignatureList(s2) == ReadSignatures(ReadInt(s2, 4).rest, ReadInt(s2, 4).value);
    UpdateWithin(ReadGovernance(s).value);
  }

  lemma UpdateWithin(p: Payload)
    requires p.Governance?
    ensures |EncodeUpdate(p.update)| <= |EncodePayload(p)|
    ensures p.update.SetParameter? ==> |p.update.name| <= |EncodePayload(p)|
  {
  }

  lemma ReadTransferFits(s: Bytes)
    requires ReadTransfer(s).Got?
    ensures PayloadFits(ReadTransfer(s).value)
  {
    var s1 := TakeBytes(s, 32).rest;
    ReadIntFits(s1, 4);
    ReadIntFits(ReadInt(s1, 4).rest, 16);
  }

  lemma ReadDistributeFeesFits(s: Bytes)
    requires ReadDistributeFees(s).Got?
    ensures PayloadFits(ReadDistributeFees(s).value)
  {
    ReadIntFits(s, 4);
    var s1 := ReadInt(s, 4).rest;
    ReadIntFits(s1, 16);
    SplitCanonical(ReadBytes(ReadInt(s1, 16).rest).value);
  }

  lemma ReadPayloadFits(s: Bytes)
    requires ReadPayload(s).Got? && |s| <= U32_MAX
    requires |EncodePayload(ReadPayload(s).value)| <= U32_MAX
    ensures PayloadFits(ReadPayload(s).value)
  {
    var tag, s1 := ReadInt(s, 1).value, ReadInt(s, 1).rest;
    if tag == 0 {
      ReadTransferFits(s1);
    } else if tag == 3 {
      ReadGovernanceFits(s1);
    } else if tag == 4 {
      ReadDistributeFeesFits(s1);
    }
  }

  lemma ReadKeylessFits(s: Bytes)
    requires ReadKeyless(s).Got?
    ensures ReadKeyless(s).value.expDateSecs <= U64_MAX && ReadKeyless(s).value.expHorizonSecs <= U64_MAX
  {
    var s4 := TakeBytes(TakeBytes(TakeBytes(TakeBytes(s, 32).rest, 32).rest, 32).rest, 64).rest;
    ReadIntFits(s4, 8);
    ReadIntFits(ReadInt(s4, 8).rest, 8);
  }

  lemma ReadAuthenticatorFits(s: Bytes)
    requires ReadAuthenticator(s).Got?
    ensures AuthenticatorFits(ReadAuthenticator(s).value)
  {
    if ReadInt(s, 1).value == 1 {
      ReadKeylessFits(ReadInt(s, 1).rest);
    }
  }

  lemma ReadPricesFit(s: Bytes)
    requires ReadPrices(s).Got?
    ensures var p := ReadPrices(s).value; p.0 <= U64_MAX && p.1 <= U64_MAX && p.2 <= U128_MAX && p.3 <= U128_MAX
  {
    ReadIntFits(s, 8);
    var s1 := ReadInt(s, 8).rest;
    ReadIntFits(s1, 8);
    var s2 := ReadInt(s1, 8).rest;
    ReadIntFits(s2, 16);
    ReadIntFits(ReadInt(s2, 16).rest, 16);
  }

  lemma ReadHeadFits(s: Bytes)
    requires ReadHead(s).Got?
    ensures HeadFits(ReadHead(s).value)
  {
    var s1 := TakeBytes(s, 32).rest;
    ReadIntFits(s1, 8);
    var s2 := ReadInt(s1, 8).rest;
    ReadIntFits(s2, 4);
    var s3 := ReadInt(s2, 4).rest;
    ReadIntFits(s3, 16);
    ReadPricesFit(ReadInt(s3, 16).rest);
  }

  lemma ReadTxParts(s: Bytes)
    requires ReadTx(s).Got?
    ensures ReadHead(s).Got? && ReadBytes(ReadHead(s).rest).Got?
    ensures var inner := ReadBytes(ReadHead(s).rest);
            && ReadPayload(inner.value).Got? && ReadPayload(inner.value).rest == [] && ReadAuthenticator(inner.rest).Got?
            && ReadTx(s).value == Assemble(ReadHead(s).value, ReadPayload(inner.value).value, ReadAuthenticator(inner.rest).value)
  {
  }

  lemma AssembleFits(h: Head, p: Payload, a: Authenticator)
    requires HeadFits(h) && PayloadFits(p) && AuthenticatorFits(a) && |EncodeTx(Assemble(h, p, a))| <= MAX_TRANSACTION_BYTES
    ensures TxFits(Assemble(h, p, a))
  {
    assert HeadOf(Assemble(h, p, a)) == h;
  }

  lemma ReadTxFits(s: Bytes)
    requires ReadTx(s).Got? && |EncodeTx(ReadTx(s).value)| <= MAX_TRANSACTION_BYTES
    ensures TxFits(ReadTx(s).value)
  {
    ReadTxParts(s);
    var h := ReadHead(s);
    var inner := ReadBytes(h.rest);
    ReadHeadFits(s);
    PayloadWithin(ReadTx(s).value);
    PutReadBytes(h.rest);
    ReadPayloadFits(inner.value);
    ReadAuthenticatorFits(inner.rest);
    AssembleFits(h.value, ReadPayload(inner.value).value, ReadAuthenticator(inner.rest).value);
  }

  /** Decoding and encoding are inverse bijections between the byte strings L1 accepts and the
      transactions within the limits: no transaction has two encodings, and nothing else decodes. */
  lemma WireExact(s: Bytes, t: Transaction)
    ensures DecodeTx(s) == Ok(t) <==> TxFits(t) && EncodeTx(t) == s
  {
    if TxFits(t) && EncodeTx(t) == s {
      WireRoundTrip(t);
    }
    if DecodeTx(s) == Ok(t) {
      ReadTxFits(s);
    }
  }
}
