// SHA-1 as RFC 3174 defines it: padding (section 4), functions and constants (section 5),
// and the 80-word method of section 6.1.
module Sha1Spec {
  import opened ByteValues

  datatype Hash = Hash(a: bv32, b: bv32, c: bv32, d: bv32, e: bv32)

  const IV := Hash(0x67452301, 0xEFCDAB89, 0x98BADCFE, 0x10325476, 0xC3D2E1F0)

  function Rol1(x: bv32): bv32 { (x << 1) | (x >> 31) }
  function Rol5(x: bv32): bv32 { (x << 5) | (x >> 27) }
  function Rol30(x: bv32): bv32 { (x << 30) | (x >> 2) }

  function Ch(b: bv32, c: bv32, d: bv32): bv32 { (b & c) | (!b & d) }
  function Parity(b: bv32, c: bv32, d: bv32): bv32 { b ^ c ^ d }
  function Maj(b: bv32, c: bv32, d: bv32): bv32 { (b & c) | (b & d) | (c & d) }

  function F(t: nat, b: bv32, c: bv32, d: bv32): bv32 {
    if t < 20 then Ch(b, c, d) else if t < 40 then Parity(b, c, d) else if t < 60 then Maj(b, c, d) else Parity(b, c, d)
  }

  function K(t: nat): bv32 {
    if t < 20 then 0x5A827999 else if t < 40 then 0x6ED9EBA1 else if t < 60 then 0x8F1BBCDC else 0xCA62C1D6
  }

  function Expand(a: bv32, b: bv32, c: bv32, d: bv32): bv32 { Rol1(a ^ b ^ c ^ d) }

  function W(block: seq<bv32>, t: nat): bv32
    requires |block| == 16
  {
    if t < 16 then block[t]
    else Expand(W(block, t - 3), W(block, t - 8), W(block, t - 14), W(block, t - 16))
  }

  function Temp(a: bv32, f: bv32, e: bv32, w: bv32, k: bv32): bv32 { Rol5(a) + f + e + w + k }

  function Step(h: Hash, t: nat, w: bv32): Hash {
    Hash(Temp(h.a, F(t, h.b, h.c, h.d), h.e, w, K(t)), h.a, Rol30(h.b), h.c, h.d)
  }

  function Steps(h: Hash, block: seq<bv32>, t: nat): Hash
    requires |block| == 16
  {
    if t == 0 then h else Step(Steps(h, block, t - 1), t - 1, W(block, t - 1))
  }

  function AddWord(x: bv32, y: bv32): bv32 { x + y }

  function AddHash(x: Hash, y: Hash): Hash {
    Hash(AddWord(x.a, y.a), AddWord(x.b, y.b), AddWord(x.c, y.c), AddWord(x.d, y.d), AddWord(x.e, y.e))
  }

  function BigEndian(b0: bv8, b1: bv8, b2: bv8, b3: bv8): bv32 {
    ((b0 as bv32) << 24) | ((b1 as bv32) << 16) | ((b2 as bv32) << 8) | (b3 as bv32)
  }

  function BlockWords(b: seq<bv8>): (w: seq<bv32>)
    requires |b| == 64
    ensures |w| == 16
  {
    seq(16, k requires 0 <= k < 16 => BigEndian(b[4 * k], b[4 * k + 1], b[4 * k + 2], b[4 * k + 3]))
  }

  function Compress(h: Hash, b: seq<bv8>): Hash
    requires |b| == 64
  {
    AddHash(h, Steps(h, BlockWords(b), 80))
  }

  /** Compression folded over the whole 64-byte blocks of m; a shorter tail is left alone. */
  function Absorb(h: Hash, m: seq<bv8>): Hash
    decreases |m|
  {
    if |m| < 64 then h else Absorb(Compress(h, m[..64]), m[64..])
  }

  function Zeros(n: nat): (z: seq<bv8>)
    ensures |z| == n
  {
    seq(n, _ => 0)
  }

  /** The message length in bits as eight bytes, most significant first. */
  function LengthBytes(bits: nat): (b: seq<bv8>)
    ensures |b| == 8
  {
    [LowByte(bits / 0x100_0000_0000_0000), LowByte(bits / 0x1_0000_0000_0000),
     LowByte(bits / 0x100_0000_0000), LowByte(bits / 0x1_0000_0000),
     LowByte(bits / 0x100_0000), LowByte(bits / 0x1_0000), LowByte(bits / 0x100), LowByte(bits)]
  }

  /** Any eight bytes are the length bytes of the number they spell. */
  lemma {:induction false} LengthSpelled(b: seq<bv8>)
    requires |b| == 8
    ensures LengthBytes(Spelled(b)) == b
  {
    hide LowByte, Spelled;
    SpelledEight(b);
    var n := Spelled(b);
    assert n / 0x1_0000_0000 / 0x100_0000 == n / 0x100_0000_0000_0000;
    assert n / 0x1_0000_0000 / 0x1_0000 == n / 0x1_0000_0000_0000 && n / 0x1_0000_0000 / 0x100 == n / 0x100_0000_0000;
  }

  /** How many zero bytes follow the 0x80 byte: just enough to leave eight bytes in the last block. */
  function PadZeros(n: nat): nat { (119 - n % 64) % 64 }

  function Pad(m: seq<bv8>): seq<bv8> { m + [0x80] + Zeros(PadZeros(|m|)) + LengthBytes(8 * |m| % 0x1_0000_0000_0000_0000) }

  lemma {:induction false} PadWhole(n: nat)
    ensures (n + 9 + PadZeros(n)) % 64 == 0 && PadZeros(n) <= 63
  {
    var q, r := n / 64, n % 64;
    assert n + 9 + PadZeros(n) == if r <= 55 then 64 * (q + 1) else 64 * (q + 2);
  }

  lemma {:induction false} PadLength(m: seq<bv8>)
    ensures |Pad(m)| % 64 == 0 && |Pad(m)| - |m| <= 72
  {
    hide LengthBytes, PadZeros;
    PadWhole(|m|);
    assert |Pad(m)| == |m| + 9 + PadZeros(|m|);
  }

  function WordBytes(w: bv32): (b: seq<bv8>)
    ensures |b| == 4
  {
    [((w >> 24) & 0xFF) as bv8, ((w >> 16) & 0xFF) as bv8, ((w >> 8) & 0xFF) as bv8, (w & 0xFF) as bv8]
  }

  function HashBytes(h: Hash): (d: seq<bv8>)
    ensures |d| == 20
  {
    WordBytes(h.a) + WordBytes(h.b) + WordBytes(h.c) + WordBytes(h.d) + WordBytes(h.e)
  }

  function Sha1(m: seq<bv8>): (d: seq<bv8>)
    ensures |d| == 20
  {
    HashBytes(Absorb(IV, Pad(m)))
  }

  // --- absorbing a message piece by piece ---

  lemma {:induction false} AbsorbConcat(h: Hash, a: seq<bv8>, b: seq<bv8>)
    requires |a| % 64 == 0
    ensures Absorb(h, a + b) == Absorb(Absorb(h, a), b)
    decreases |a|
  {
    hide Compress;
    if |a| < 64 {
      assert a == [];
      assert a + b == b;
    } else {
      assert (a + b)[..64] == a[..64];
      assert (a + b)[64..] == a[64..] + b;
      AbsorbConcat(Compress(h, a[..64]), a[64..], b);
    }
  }

  lemma {:induction false} AbsorbBlock(h: Hash, a: seq<bv8>, b: seq<bv8>)
    requires |a| % 64 == 0 && |b| == 64
    ensures Absorb(h, a + b) == Compress(Absorb(h, a), b)
  {
    hide Compress;
    AbsorbConcat(h, a, b);
    assert b[..64] == b && b[64..] == [];
  }

  lemma {:induction false} AbsorbTail(h: Hash, a: seq<bv8>, b: seq<bv8>)
    requires |a| % 64 == 0 && |b| < 64
    ensures Absorb(h, a + b) == Absorb(h, a)
  {
    AbsorbConcat(h, a, b);
  }
}
