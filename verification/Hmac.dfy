// ln_hmac_sha1 of components/utils/ln_sha1.c, against section 2 of RFC 2104.
module Hmac {
  import opened Sha1Spec
  import opened Sha1Transform
  import opened Sha1Stream

  function XorByte(x: bv8, y: bv8): bv8 { x ^ y }

  function XorEach(s: seq<bv8>, c: bv8): (r: seq<bv8>)
    ensures |r| == |s|
  {
    seq(|s|, i requires 0 <= i < |s| => XorByte(s[i], c))
  }

  /** A key over one block is hashed first; the result is padded with zeros to one block. */
  function KeyBlock(k: seq<bv8>): (b: seq<bv8>)
    ensures |b| == 64
  {
    var short := if |k| > 64 then Sha1(k) else k;
    short + Zeros(64 - |short|)
  }

  function HmacSha1(k: seq<bv8>, text: seq<bv8>): (d: seq<bv8>)
    ensures |d| == 20
  {
    Sha1(XorEach(KeyBlock(k), 0x5C) + Sha1(XorEach(KeyBlock(k), 0x36) + text))
  }

  /** Section 2 of RFC 2104 in bytes: i and o are the padded key xored with 0x36 and 0x5C. */
  lemma {:induction false} HmacBytes(k: seq<bv8>, text: seq<bv8>, i: seq<bv8>, o: seq<bv8>)
    requires |i| == |o| == 64
    requires var key := if |k| > 64 then Sha1(k) else k;
      forall j | 0 <= j < 64 ::
        && i[j] == (if j < |key| then key[j] else 0) ^ 0x36
        && o[j] == (if j < |key| then key[j] else 0) ^ 0x5C
    ensures HmacSha1(k, text) == Sha1(o + Sha1(i + text))
  {
    hide Sha1;
    assert i == XorEach(KeyBlock(k), 0x36) && o == XorEach(KeyBlock(k), 0x5C);
  }

  lemma {:induction false} XorZero(c: bv8)
    ensures XorByte(0, c) == c
  {}

  /** buf[i] = k[i] ^ pad, then buf[i] = pad up to the block size. */
  method PadKey(k: seq<bv8>, pad: bv8, buf: array<bv8>)
    requires |k| <= 64 && buf.Length == 64
    modifies buf
    ensures buf[..] == XorEach(k + Zeros(64 - |k|), pad)
  {
    hide XorByte;
    XorZero(pad);
    ghost var block := k + Zeros(64 - |k|);
    for i := 0 to |k|
      invariant forall n | 0 <= n < i :: buf[n] == XorByte(block[n], pad)
    {
      buf[i] := XorByte(k[i], pad);
    }
    for i := |k| to 64
      invariant forall n | 0 <= n < i :: buf[n] == XorByte(block[n], pad)
    {
      buf[i] := pad;
    }
  }

  /** One init, two updates and a final. */
  method HashTwo(a: seq<bv8>, b: seq<bv8>) returns (digest: seq<bv8>)
    requires |a| < TWO32 && |a| % 64 + |b| < TWO32
    ensures digest == Sha1(a + b)
  {
    hide *;
    var ctx := new Sha1Context();
    ctx.Init();
    ctx.Position();
    ctx.Update(a);
    ctx.Position();
    assert ctx.message == a;
    ctx.Update(b);
    assert ctx.message == a + b;
    digest := ctx.Final();
  }

  method HmacSha1Into(k: seq<bv8>, d: seq<bv8>, out: array<bv8>)
    requires |k| < TWO32 && |d| < TWO32 && out.Length >= 20
    modifies out
    ensures out[..20] == HmacSha1(k, d) && out[20..] == old(out[20..])
  {
    hide Sha1, XorEach;
    var key := k;
    if |k| > 64 {
      var ctx := new Sha1Context();
      ctx.Init();
      ctx.Position();
      ctx.Update(k);
      assert ctx.message == k;
      key := ctx.Final();
    }
    assert KeyBlock(k) == key + Zeros(64 - |key|);
    var buf := new bv8[64];
    PadKey(key, 0x36, buf);
    var inner := HashTwo(buf[..], d);
    PadKey(key, 0x5C, buf);
    var outer := HashTwo(buf[..], inner);
    Copy(out, 0, outer);
  }

  function Joined(pieces: seq<seq<bv8>>): seq<bv8> {
    if |pieces| == 0 then [] else Joined(pieces[..|pieces| - 1]) + pieces[|pieces| - 1]
  }

  /** The digest does not depend on how a message is split into updates. */
  method HashPieces(pieces: seq<seq<bv8>>) returns (digest: seq<bv8>)
    requires forall i | 0 <= i < |pieces| :: |Joined(pieces[..i])| % 64 + |pieces[i]| < TWO32
    ensures digest == Sha1(Joined(pieces))
  {
    hide Sha1, Absorb, Tail, Counts, ArrayHash;
    var ctx := new Sha1Context();
    ctx.Init();
    for i := 0 to |pieces|
      invariant ctx.Valid() && fresh(ctx) && fresh(ctx.state) && fresh(ctx.buffer)
      invariant ctx.message == Joined(pieces[..i])
    {
      ctx.Position();
      ctx.Update(pieces[i]);
      assert pieces[..i + 1][..i] == pieces[..i];
    }
    assert pieces[..|pieces|] == pieces;
    digest := ctx.Final();
  }
}
