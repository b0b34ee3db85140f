/** The canonical binary codec: fixed-width big-endian integers, `u32`-prefixed byte strings.

    `Put*` functions write a value in front of what follows it and `Read*` functions take a value
    off the front, so that a record's reader undoes its writer field by field. The classes
    `Writer` and `Reader` are the buffers of the source, proved against these. */
module Codec {
  import opened Digests

  /** `SignatureLimit` is the wire format's own limit on council signatures, carried here so that
      one reader type serves every record. */
  datatype DecodeError =
    | Truncated
    | UnknownVariant(tag: nat)
    | TrailingBytes(count: nat)
    | LengthOverflow
    | SignatureLimit

  /** A value and the input left after it. */
  datatype Read<+T> = Got(value: T, rest: Bytes) | Bad(error: DecodeError) {
    predicate IsFailure() {
      Bad?
    }
    function PropagateFailure<U>(): Read<U>
      requires Bad?
    {
      Bad(error)
    }
    function Extract(): (T, Bytes)
      requires Got?
    {
      (value, rest)
    }
  }

  function Pow256(w: nat): nat {
    if w == 0 then 1 else 256 * Pow256(w - 1)
  }

  lemma Widths()
    ensures Pow256(1) == 256
    ensures Pow256(4) == U32_MAX + 1
    ensures Pow256(8) == U64_MAX + 1
    ensures Pow256(16) == U128_MAX + 1
  {
    assert Pow256(2) == 65536;
    assert Pow256(6) == 0x1_0000_0000_0000;
    assert Pow256(10) == 0x1_0000_0000_0000_0000_0000;
    assert Pow256(12) == 0x1_0000_0000_0000_0000_0000_0000;
    assert Pow256(14) == 0x1_0000_0000_0000_0000_0000_0000_0000;
  }

  /** `n` as `w` big-endian bytes. */
  function BE(n: nat, w: nat): (b: Bytes)
    ensures |b| == w
  {
    if w == 0 then [] else BE(n / 256, w - 1) + [n % 256]
  }

  function FromBE(b: Bytes): nat {
    if b == [] then 0 else FromBE(b[..|b| - 1]) * 256 + b[|b| - 1]
  }

  lemma {:induction false} BERoundTrip(n: nat, w: nat)
    requires n < Pow256(w)
    ensures FromBE(BE(n, w)) == n
    decreases w
  {
    if w > 0 {
      BERoundTrip(n / 256, w - 1);
      assert BE(n, w)[..w - 1] == BE(n / 256, w - 1);
    }
  }

  lemma {:induction false} FromBERoundTrip(b: Bytes)
    ensures FromBE(b) < Pow256(|b|) && BE(FromBE(b), |b|) == b
    decreases |b|
  {
    if b != [] {
      var front := b[..|b| - 1];
      FromBERoundTrip(front);
      assert FromBE(b) / 256 == FromBE(front);
      assert b == front + [b[|b| - 1]];
    }
  }

  // ----- integers, flags and byte strings

  function PutInt(n: nat, w: nat, rest: Bytes): Bytes {
    BE(n, w) + rest
  }

  function PutBytes(b: Bytes, rest: Bytes): Bytes {
    PutInt(|b|, 4, b + rest)
  }

  function PutBool(b: bool, rest: Bytes): Bytes {
    PutInt(if b then 1 else 0, 1, rest)
  }

  function TakeBytes(s: Bytes, n: nat): Read<Bytes> {
    if n <= |s| then Got(s[..n], s[n..]) else Bad(Truncated)
  }

  function ReadInt(s: Bytes, w: nat): Read<nat> {
    var (b, rest) :- TakeBytes(s, w);
    Got(FromBE(b), rest)
  }

  function ReadBool(s: Bytes): Read<bool> {
    var (b, rest) :- ReadInt(s, 1);
    if b == 0 then Got(false, rest) else if b == 1 then Got(true, rest) else Bad(UnknownVariant(b))
  }

  function ReadBytes(s: Bytes): Read<Bytes> {
    var (len, rest) :- ReadInt(s, 4);
    if len > |rest| then Bad(LengthOverflow) else TakeBytes(rest, len)
  }

  lemma ReadPutInt(n: nat, w: nat, rest: Bytes)
    requires n < Pow256(w)
    ensures ReadInt(PutInt(n, w, rest), w) == Got(n, rest)
  {
    BERoundTrip(n, w);
    assert PutInt(n, w, rest)[..w] == BE(n, w);
    assert PutInt(n, w, rest)[w..] == rest;
  }

  lemma PutReadInt(s: Bytes, w: nat)
    requires ReadInt(s, w).Got?
    ensures ReadInt(s, w).value < Pow256(w)
    ensures s == PutInt(ReadInt(s, w).value, w, ReadInt(s, w).rest)
    ensures |s| == w + |ReadInt(s, w).rest|
  {
    FromBERoundTrip(s[..w]);
  }

  lemma ReadPutRaw(b: Bytes, rest: Bytes)
    ensures TakeBytes(b + rest, |b|) == Got(b, rest)
  {
    assert (b + rest)[..|b|] == b && (b + rest)[|b|..] == rest;
  }

  lemma PutReadRaw(s: Bytes, n: nat)
    requires TakeBytes(s, n).Got?
    ensures s == TakeBytes(s, n).value + TakeBytes(s, n).rest && |TakeBytes(s, n).value| == n
  {
  }

  lemma ReadPutBytes(b: Bytes, rest: Bytes)
    requires |b| <= U32_MAX
    ensures ReadBytes(PutBytes(b, rest)) == Got(b, rest)
  {
    Widths();
    ReadPutInt(|b|, 4, b + rest);
    ReadPutRaw(b, rest);
  }

  lemma PutReadBytes(s: Bytes)
    requires ReadBytes(s).Got?
    ensures s == PutBytes(ReadBytes(s).value, ReadBytes(s).rest) && |ReadBytes(s).value| <= U32_MAX
  {
    Widths();
    PutReadInt(s, 4);
  }

  lemma ReadPutBool(b: bool, rest: Bytes)
    ensures ReadBool(PutBool(b, rest)) == Got(b, rest)
  {
    Widths();
    ReadPutInt(if b then 1 else 0, 1, rest);
  }

  // ----- UTF-8

  predicate Continues(s: Bytes, i: nat) {
    i < |s| && 0x80 <= s[i] <= 0xBF
  }

  /** How many bytes the chunk at the front takes, and whether it is a well-formed character. */
  function Utf8Chunk(s: Bytes): (c: (nat, bool))
    requires s != []
    ensures 1 <= c.0 <= |s|
  {
    var b := s[0];
    if b < 0x80 then (1, true)
    else if 0xC2 <= b <= 0xDF then
      if Continues(s, 1) then (2, true) else (1, false)
    else if 0xE0 <= b <= 0xEF then
      if !(Continues(s, 1) && (b == 0xE0 ==> s[1] >= 0xA0) && (b == 0xED ==> s[1] <= 0x9F)) then (1, false)
      else if Continues(s, 2) then (3, true) else (2, false)
    else if 0xF0 <= b <= 0xF4 then
      if !(Continues(s, 1) && (b == 0xF0 ==> s[1] >= 0x90) && (b == 0xF4 ==> s[1] <= 0x8F)) then (1, false)
      else if !Continues(s, 2) then (2, false)
      else if Continues(s, 3) then (4, true) else (3, false)
    else (1, false)
  }

  /** `String::from_utf8_lossy`: each malformed chunk becomes U+FFFD. */
  function Lossy(s: Bytes): Bytes
    decreases |s|
  {
    if s == [] then []
    else
      var (n, ok) := Utf8Chunk(s);
      (if ok then s[..n] else [0xEF, 0xBF, 0xBD]) + Lossy(s[n..])
  }

  /** A string is its UTF-8 bytes: a byte string that lossy decoding leaves alone. */
  predicate IsString(s: Bytes) {
    Lossy(s) == s
  }

  /** Lossy decoding is a projection: what it produces is a string. */
  lemma {:induction false} LossyIsString(s: Bytes)
    ensures IsString(Lossy(s))
    decreases |s|
  {
    if s != [] {
      var (n, ok) := Utf8Chunk(s);
      var head: Bytes := if ok then s[..n] else [0xEF, 0xBF, 0xBD];
      var tail := Lossy(s[n..]);
      LossyIsString(s[n..]);
      assert Utf8Chunk(head + tail) == (|head|, true);
      assert (head + tail)[..|head|] == head && (head + tail)[|head|..] == tail;
    }
  }

  function ReadString(s: Bytes): Read<Bytes> {
    var (b, rest) :- ReadBytes(s);
    Got(Lossy(b), rest)
  }

  lemma ReadPutString(b: Bytes, rest: Bytes)
    requires |b| <= U32_MAX && IsString(b)
    ensures ReadString(PutBytes(b, rest)) == Got(b, rest)
  {
    ReadPutBytes(b, rest);
  }

  // ----- the buffers

  class Writer {
    var buf: Bytes

    constructor ()
      ensures buf == []
    {
      buf := [];
    }

    method Int(n: nat, w: nat)
      modifies this
      ensures buf == old(buf) + PutInt(n, w, [])
    {
      buf := buf + BE(n, w);
    }

    method Bool(b: bool)
      modifies this
      ensures buf == old(buf) + PutBool(b, [])
    {
      Int(if b then 1 else 0, 1);
    }

    method Raw(b: Bytes)
      modifies this
      ensures buf == old(buf) + b
    {
      buf := buf + b;
    }

    method LengthPrefixed(b: Bytes)
      modifies this
      ensures buf == old(buf) + PutBytes(b, [])
    {
      Int(|b|, 4);
      buf := buf + b;
    }
  }

  /** Reads advance the offset on success; a failed read of the prefix leaves it in place. */
  class Reader {
    const input: Bytes
    var offset: nat

    ghost predicate Valid()
      reads this
    {
      offset <= |input|
    }

    ghost function Rest(): Bytes
      requires Valid()
      reads this
    {
      input[offset..]
    }

    constructor (input: Bytes)
      ensures Valid() && this.input == input && Rest() == input
    {
      this.input, offset := input, 0;
    }

    method Take(n: nat) returns (r: Result<Bytes, DecodeError>)
      requires Valid()
      modifies this
      ensures Valid()
      ensures match TakeBytes(old(Rest()), n)
              case Got(v, rest) => r == Ok(v) && Rest() == rest
              case Bad(e) => r == Err(e) && offset == old(offset)
    {
      var end := offset + n;
      if end > |input| {
        return Err(Truncated);
      }
      r := Ok(input[offset..end]);
      assert input[offset..][..n] == input[offset..end];
      offset := end;
    }

    method Int(w: nat) returns (r: Result<nat, DecodeError>)
      requires Valid()
      modifies this
      ensures Valid()
      ensures match ReadInt(old(Rest()), w)
              case Got(v, rest) => r == Ok(v) && Rest() == rest
              case Bad(e) => r == Err(e)
    {
      var b :- Take(w);
      return Ok(FromBE(b));
    }

    method Bool() returns (r: Result<bool, DecodeError>)
      requires Valid()
      modifies this
      ensures Valid()
      ensures match ReadBool(old(Rest()))
              case Got(v, rest) => r == Ok(v) && Rest() == rest
              case Bad(e) => r == Err(e)
    {
      var b :- Int(1);
      if b == 0 {
        return Ok(false);
      } else if b == 1 {
        return Ok(true);
      }
      return Err(UnknownVariant(b));
    }

    method LengthPrefixed() returns (r: Result<Bytes, DecodeError>)
      requires Valid()
      modifies this
      ensures Valid()
      ensures match ReadBytes(old(Rest()))
              case Got(v, rest) => r == Ok(v) && Rest() == rest
              case Bad(e) => r == Err(e)
    {
      var len :- Int(4);
      if len > |input| - offset {
        return Err(LengthOverflow);
      }
      r := Take(len);
    }

    /** Succeeds exactly when no input is left. */
    method Finish() returns (r: Result<(), DecodeError>)
      requires Valid()
      ensures r == if Rest() == [] then Ok(()) else Err(TrailingBytes(|Rest()|))
    {
      var remaining := |input| - offset;
      r := if remaining == 0 then Ok(()) else Err(TrailingBytes(remaining));
    }
  }
}
