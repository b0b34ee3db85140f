/** Length-prefixed framing: how a domain tag and a list of fields become one byte string. */
module Framing {
  import opened Digests
  import opened Codec

  /** Every field behind its own length. */
  function Frames(fields: seq<Bytes>): Bytes {
    if fields == [] then [] else PutBytes(fields[0], Frames(fields[1..]))
  }

  ghost predicate Frameable(fields: seq<Bytes>) {
    forall i :: 0 <= i < |fields| ==> |fields[i]| <= U32_MAX
  }

  lemma PutBytesAppend(b: Bytes, x: Bytes, y: Bytes)
    ensures PutBytes(b, x) + y == PutBytes(b, x + y)
  {
    assert (b + x) + y == b + (x + y);
    assert (BE(|b|, 4) + (b + x)) + y == BE(|b|, 4) + ((b + x) + y);
  }

  lemma {:induction false} FramesAppend(fields: seq<Bytes>, f: Bytes)
    ensures Frames(fields + [f]) == Frames(fields) + PutBytes(f, [])
    decreases |fields|
  {
    if fields == [] {
      assert fields + [f] == [f];
    } else {
      FramesAppend(fields[1..], f);
      assert (fields + [f])[1..] == fields[1..] + [f];
      PutBytesAppend(fields[0], Frames(fields[1..]), PutBytes(f, []));
    }
  }

  lemma {:induction false} FramesInjective(fs: seq<Bytes>, gs: seq<Bytes>)
    requires Frameable(fs) && Frameable(gs) && Frames(fs) == Frames(gs)
    ensures fs == gs
    decreases |fs|
  {
    if fs != [] && gs != [] {
      ReadPutBytes(fs[0], Frames(fs[1..]));
      ReadPutBytes(gs[0], Frames(gs[1..]));
      FramesInjective(fs[1..], gs[1..]);
      assert fs == [fs[0]] + fs[1..] && gs == [gs[0]] + gs[1..];
    }
  }

  /** Two encodings are the same bytes exactly when domain and field list agree. */
  lemma FramedInjective(domain: Bytes, fs: seq<Bytes>, domain': Bytes, gs: seq<Bytes>)
    requires Frameable([domain] + fs) && Frameable([domain'] + gs)
    ensures Frames([domain] + fs) == Frames([domain'] + gs) <==> domain == domain' && fs == gs
  {
    if Frames([domain] + fs) == Frames([domain'] + gs) {
      FramesInjective([domain] + fs, [domain'] + gs);
      assert ([domain] + fs)[0] == domain && ([domain'] + gs)[0] == domain';
      assert ([domain] + fs)[1..] == fs && ([domain'] + gs)[1..] == gs;
    }
  }

  class CanonicalEncoder {
    var buf: Bytes
    ghost var fields: seq<Bytes>

    ghost predicate Valid()
      reads this
    {
      buf == Frames(fields)
    }

    constructor (domain: Bytes)
      ensures Valid() && fields == [domain]
    {
      buf := PutBytes(domain, []);
      fields := [domain];
    }

    method Field(b: Bytes)
      requires Valid()
      modifies this
      ensures Valid() && fields == old(fields) + [b]
    {
      FramesAppend(fields, b);
      buf := buf + BE(|b|, 4);
      buf := buf + b;
      fields := fields + [b];
    }

    method U64(n: nat)
      requires Valid()
      modifies this
      ensures Valid() && fields == old(fields) + [BE(n, 8)]
    {
      Field(BE(n, 8));
    }

    method U128(n: nat)
      requires Valid()
      modifies this
      ensures Valid() && fields == old(fields) + [BE(n, 16)]
    {
      Field(BE(n, 16));
    }
  }
}
