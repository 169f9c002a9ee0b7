// The streaming context of components/utils/ln_sha1.c (init, update, final).
module Sha1Stream {
  import opened ByteValues
  import opened Sha1Spec
  import opened Sha1Transform

  const TWO32: nat := 0x1_0000_0000
  const TWO64: nat := 0x1_0000_0000_0000_0000

  /** The part of m after its whole blocks. */
  function Tail(m: seq<bv8>): seq<bv8> { m[|m| - |m| % 64..] }

  // --- the bit counter in two 32-bit halves (ln_sha1.c:202-206) ---

  ghost predicate Counts(c0: nat, c1: nat, n: nat) { c0 < TWO32 && c1 < TWO32 && c0 + TWO32 * c1 == 8 * n % TWO64 }

  lemma {:induction false} DivUnique(x: nat, d: nat, q: nat, r: nat)
    requires 0 < d && x == d * q + r && r < d
    ensures x / d == q && x % d == r
  {
    assert x / d - q == 0 by {
      assert d * (x / d - q) == r - x % d;
      if x / d > q {
        MulMono(d, x / d - q);
      } else if x / d < q {
        MulMono(d, q - x / d);
      }
    }
  }

  lemma {:induction false} MulMono(d: nat, k: nat)
    requires 0 < k
    ensures d * k >= d
  {
    assert d * k == d + d * (k - 1);
  }

  /** The counter and what it lost. */
  lemma {:induction false} CountsLost(c0: nat, c1: nat, n: nat) returns (q: nat)
    requires Counts(c0, c1, n)
    ensures 8 * n == TWO64 * q + TWO32 * c1 + c0
  {
    q := 8 * n / TWO64;
  }

  lemma {:induction false} CountsPosition(c0: nat, c1: nat, n: nat)
    requires Counts(c0, c1, n)
    ensures c0 / 8 % 64 == n % 64
  {
    var q := CountsLost(c0, c1, n);
    var k := (TWO64 / 512) * q + (TWO32 / 512) * c1;
    var m := n - 64 * k;
    hide Counts;
    assert c0 == 8 * m;
    DivUnique(n, 64, k + m / 64, m % 64);
  }

  /** 32-bit arithmetic on the counter halves. */
  function Add32(a: nat, b: nat): (r: nat)
    ensures r < TWO32
  {
    (a + b) % TWO32
  }

  function Shl3(len: nat): (r: nat)
    ensures r < TWO32
  {
    8 * len % TWO32
  }

  function Shr29(len: nat): nat { len / 0x2000_0000 }

  lemma {:induction false} AddCarries(a: nat, b: nat) returns (carry: nat)
    requires a < TWO32 && b < TWO32
    ensures a + b == Add32(a, b) + TWO32 * carry
    ensures carry == if Add32(a, b) < b then 1 else 0
  {
    carry := if a + b < TWO32 then 0 else 1;
    DivUnique(a + b, TWO32, carry, a + b - TWO32 * carry);
  }

  lemma {:induction false} ShiftParts(len: nat)
    requires len < TWO32
    ensures 8 * len == Shl3(len) + TWO32 * Shr29(len) && Shr29(len) < 8
  {
    var h, l := len / 0x2000_0000, len % 0x2000_0000;
    DivUnique(8 * len, TWO32, h, 8 * l);
  }

  lemma {:induction false} CountsFound(c0: nat, c1: nat, n: nat, q: nat)
    requires c0 < TWO32 && c1 < TWO32 && 8 * n == TWO64 * q + TWO32 * c1 + c0
    ensures Counts(c0, c1, n)
  {
    DivUnique(8 * n, TWO64, q, TWO32 * c1 + c0);
  }

  /** The low half with its carry and the high half together add 8 * len modulo 2^64. */
  lemma {:induction false} CountsAdd(c0: nat, c1: nat, n: nat, len: nat)
    requires Counts(c0, c1, n) && len < TWO32
    ensures var low := Add32(c0, Shl3(len));
            var high := if low < Shl3(len) then Add32(c1, 1) else c1;
            Counts(low, Add32(high, Shr29(len)), n + len)
  {
    var q := CountsLost(c0, c1, n);
    assert c0 < TWO32 && c1 < TWO32;
    hide Counts, Add32, Shl3, Shr29;
    ShiftParts(len);
    var low := Add32(c0, Shl3(len));
    var high := if low < Shl3(len) then Add32(c1, 1) else c1;
    var carry := AddCarries(c0, Shl3(len));
    var up := AddCarries(c1, 1);
    var up' := if carry == 1 then up else 0;
    assert c1 + carry == high + TWO32 * up';
    var over := AddCarries(high, Shr29(len));
    CountsFound(low, Add32(high, Shr29(len)), n + len, q + up' + over);
  }

  /** finalcount[i], from the counter halves (ln_sha1.c:232-235). */
  function CountByte(c0: nat, c1: nat, i: nat): bv8
    requires i < 8
  {
    var c := if i >= 4 then c0 else c1;
    var shift := if i % 4 == 0 then 0x100_0000 else if i % 4 == 1 then 0x1_0000 else if i % 4 == 2 then 0x100 else 1;
    LowByte(c / shift)
  }

  lemma {:induction false} CountDigits(c0: nat, c1: nat)
    requires c0 < TWO32 && c1 < TWO32
    ensures var bits := c0 + TWO32 * c1;
      && bits / 0x1_0000_0000 == c1 && bits / 0x100_0000_0000_0000 == c1 / 0x100_0000
      && bits / 0x1_0000_0000_0000 == c1 / 0x1_0000 && bits / 0x100_0000_0000 == c1 / 0x100
  {}

  /** Dividing by a power of 256 below 2^32 leaves the high half as a multiple of 256. */
  lemma {:induction false} LowDigit(c0: nat, c1: nat, d: nat)
    requires c0 < TWO32 && d in {1, 0x100, 0x1_0000, 0x100_0000}
    ensures (c0 + TWO32 * c1) / d % 256 == c0 / d % 256
  {
    var k := if d == 1 then 0x100_0000 else if d == 0x100 then 0x1_0000 else if d == 0x1_0000 then 0x100 else 1;
    assert TWO32 == d * k * 256;
    var q, r := c0 / d, c0 % d;
    assert c0 == d * q + r;
    assert c0 + TWO32 * c1 == d * (q + k * 256 * c1) + r;
    DivUnique(c0 + TWO32 * c1, d, q + k * 256 * c1, r);
    ModShift(q, k * c1);
  }

  lemma {:induction false} ModShift(q: nat, m: nat)
    ensures (q + 256 * m) % 256 == q % 256
  {}

  lemma {:induction false} SameLowByte(m: nat, n: nat)
    requires m % 256 == n % 256
    ensures LowByte(m) == LowByte(n)
  {}

  lemma {:induction false} CountBytes(c0: nat, c1: nat)
    requires c0 < TWO32 && c1 < TWO32
    ensures forall i | 0 <= i < 8 :: CountByte(c0, c1, i) == LengthBytes(c0 + TWO32 * c1)[i]
  {
    hide LowByte;
    var bits := c0 + TWO32 * c1;
    CountDigits(c0, c1);
    LowDigit(c0, c1, 0x100_0000);
    LowDigit(c0, c1, 0x1_0000);
    LowDigit(c0, c1, 0x100);
    LowDigit(c0, c1, 1);
    SameLowByte(bits / 0x100_0000, c0 / 0x100_0000);
    SameLowByte(bits / 0x1_0000, c0 / 0x1_0000);
    SameLowByte(bits / 0x100, c0 / 0x100);
    SameLowByte(bits, c0);
    forall i | 0 <= i < 8
      ensures CountByte(c0, c1, i) == LengthBytes(bits)[i]
    {
      assert i == 0 || i == 1 || i == 2 || i == 3 || i == 4 || i == 5 || i == 6 || i == 7;
    }
  }

  // --- the stages of one update ---

  lemma {:induction false} AbsorbWhole(m: seq<bv8>)
    ensures Absorb(IV, m) == Absorb(IV, m[..|m| - |m| % 64])
  {
    hide Compress;
    assert m == m[..|m| - |m| % 64] + Tail(m);
    AbsorbTail(IV, m[..|m| - |m| % 64], Tail(m));
  }

  /** The buffered tail topped up from the new data is one whole block. */
  lemma {:induction false} FirstBlock(m: seq<bv8>, data: seq<bv8>, i: nat)
    requires i == 64 - |m| % 64 && i <= |data|
    ensures Compress(Absorb(IV, m), Tail(m) + data[..i]) == Absorb(IV, m + data[..i])
  {
    hide Compress, Absorb;
    var whole := m[..|m| - |m| % 64];
    AbsorbWhole(m);
    assert m + data[..i] == whole + (Tail(m) + data[..i]);
    AbsorbBlock(IV, whole, Tail(m) + data[..i]);
  }

  lemma {:induction false} NextBlock(m: seq<bv8>, data: seq<bv8>, i: nat)
    requires (|m| + i) % 64 == 0 && i + 64 <= |data|
    ensures Compress(Absorb(IV, m + data[..i]), data[i..i + 64]) == Absorb(IV, m + data[..i + 64])
  {
    hide Compress, Absorb;
    assert m + data[..i + 64] == (m + data[..i]) + data[i..i + 64];
    AbsorbBlock(IV, m + data[..i], data[i..i + 64]);
  }

  lemma {:induction false} LeftOver(m: seq<bv8>, data: seq<bv8>, i: nat)
    requires (|m| + i) % 64 == 0 && i <= |data| < i + 64
    ensures Absorb(IV, m + data) == Absorb(IV, m + data[..i])
    ensures Tail(m + data) == data[i..] && |m + data| % 64 == |data| - i
  {
    hide Compress, Absorb;
    assert |m + data| == |m| + i + (|data| - i);
    assert |m + data| % 64 == |data| - i;
    assert (m + data)[..|m| + i] == m + data[..i];
    AbsorbWhole(m + data);
  }

  lemma {:induction false} ShortData(m: seq<bv8>, data: seq<bv8>)
    requires |m| % 64 + |data| <= 63
    ensures Absorb(IV, m + data) == Absorb(IV, m)
    ensures Tail(m + data) == Tail(m) + data && |m + data| % 64 == |m| % 64 + |data|
  {
    hide Compress, Absorb;
    var whole := |m| - |m| % 64;
    assert |m + data| == whole + (|m| % 64 + |data|);
    assert |m + data| % 64 == |m| % 64 + |data|;
    assert (m + data)[..whole] == m[..whole];
    AbsorbWhole(m);
    AbsorbWhole(m + data);
  }

  // --- the 32-bit sums of ln_sha1_update ---

  lemma {:induction false} SumExact(a: nat, b: nat)
    requires a + b < TWO32
    ensures Add32(a, b) == a + b
  {
    DivUnique(a + b, TWO32, 0, a + b);
  }

  /** The copy of the else branch stays in the 64-byte buffer if and only if the sum of position and length fits. */
  lemma {:induction false} CopyFitsExactly(j: nat, len: nat)
    requires j < 64 && len < TWO32
    ensures (Add32(j, len) > 63 || j + len <= 64) <==> j + len < TWO32
  {
    if j + len < TWO32 {
      SumExact(j, len);
    } else {
      DivUnique(j + len, TWO32, 1, j + len - TWO32);
    }
  }

  /** The loop guard does not wrap at any block boundary, because i + j is a multiple of 64 below 2^32. */
  lemma {:induction false} GuardExact(j: nat, i: nat, len: nat, q: nat)
    requires j < 64 && i + j == 64 * q && i <= len && j + len < TWO32
    ensures (Add32(i, 63) < len) == (i + 63 < len)
  {
    assert i + j <= TWO32 - 64;
    SumExact(i, 63);
  }

  /** ln_sha1_ctx_t. The ghost field holds everything absorbed since init. */
  class Sha1Context {
    const state: array<bv32>
    var count0: nat
    var count1: nat
    const buffer: array<bv8>
    ghost var message: seq<bv8>

    ghost predicate Shape() { state.Length == 5 && buffer.Length == 64 }

    ghost predicate Valid()
      reads this, state, buffer
    {
      && Shape()
      && ArrayHash(state[..]) == Absorb(IV, message)
      && Counts(count0, count1, |message|)
      && buffer[..|message| % 64] == Tail(message)
    }

    constructor ()
      ensures Shape() && fresh(state) && fresh(buffer)
    {
      state := new bv32[5];
      buffer := new bv8[64];
      count0, count1, message := 0, 0, [];
    }

    method Init()
      requires Shape()
      modifies this, state
      ensures Valid() && message == []
    {
      state[0] := 0x67452301;
      state[1] := 0xEFCDAB89;
      state[2] := 0x98BADCFE;
      state[3] := 0x10325476;
      state[4] := 0xC3D2E1F0;
      count0, count1 := 0, 0;
      message := [];
    }

    /** The counter part of an update: carry out of the low half, then the high bits of the length. */
    method AddCount(len: nat, ghost n: nat)
      requires Counts(count0, count1, n) && len < TWO32
      modifies this`count0, this`count1
      ensures Counts(count0, count1, n + len)
    {
      CountsAdd(count0, count1, n, len);
      hide Counts, Add32, Shl3, Shr29;
      count0 := Add32(count0, Shl3(len));
      if count0 < Shl3(len) {
        count1 := Add32(count1, 1);
      }
      count1 := Add32(count1, Shr29(len));
    }

    /** Tops up the buffered block and transforms it, then every whole block of the data; i is where it stops. */
    method WholeBlocks(data: seq<bv8>, j: nat, ghost m: seq<bv8>) returns (i: nat)
      requires Shape() && ArrayHash(state[..]) == Absorb(IV, m)
      requires j == |m| % 64 && buffer[..j] == Tail(m) && 63 < j + |data| < TWO32
      modifies state, buffer
      ensures i <= |data| < i + 64 && (|m| + i) % 64 == 0
      ensures ArrayHash(state[..]) == Absorb(IV, m + data[..i])
    {
      hide Compress, Absorb, Tail, ArrayHash, Add32;
      i := 64 - j;
      Copy(buffer, j, data[..i]);
      FirstBlock(m, data, i);
      assert buffer[..] == Tail(m) + data[..i];
      Transform(state, buffer[..]);
      ghost var q := |m| / 64 + 1;
      GuardExact(j, i, |data|, 1);
      while Add32(i, 63) < |data|
        invariant i <= |data| && |m| + i == 64 * q
        invariant (Add32(i, 63) < |data|) == (i + 63 < |data|)
        invariant ArrayHash(state[..]) == Absorb(IV, m + data[..i])
        decreases |data| - i
        modifies state
      {
        NextBlock(m, data, i);
        Transform(state, data[i..i + 64]);
        i := i + 64;
        q := q + 1;
        GuardExact(j, i, |data|, q - |m| / 64);
      }
    }

    /** Where the next byte goes in the buffer. */
    lemma {:induction false} Position()
      requires Valid()
      ensures count0 / 8 % 64 == |message| % 64
    {
      CountsPosition(count0, count1, |message|);
    }

    /** All sums are 32 bits wide; the lengths excluded are those for which the source runs out of the buffer. */
    method Update(data: seq<bv8>)
      requires Valid() && count0 / 8 % 64 + |data| < TWO32
      modifies this, state, buffer
      ensures Valid() && message == old(message) + data
    {
      hide Compress, Absorb, Counts, Tail, ArrayHash, Add32;
      ghost var m := message;
      var i: nat;
      CountsPosition(count0, count1, |m|);
      var j := count0 / 8 % 64;
      AddCount(|data|, |m|);
      SumExact(j, |data|);
      if Add32(j, |data|) > 63 {
        i := WholeBlocks(data, j, m);
        LeftOver(m, data, i);
        j := 0;
      } else {
        i := 0;
        ShortData(m, data);
      }
      message := m + data;
      Copy(buffer, j, data[i..]);
    }

    /** The padding loop stops after at most 63 zero bytes, with 56 bytes in the last block. */
    method PadOut(ghost m: seq<bv8>)
      requires Valid() && message == m + [0x80]
      modifies this, state, buffer
      ensures Valid() && message == m + [0x80] + Zeros(PadZeros(|m|))
    {
      hide Compress, Absorb, Counts, Tail, ArrayHash;
      ghost var n := 0;
      CountsPosition(count0, count1, |message|);
      assert message == m + [0x80] + Zeros(0);
      while count0 / 8 % 64 != 56
        invariant Valid() && n <= PadZeros(|m|) && message == m + [0x80] + Zeros(n)
        invariant count0 / 8 % 64 == (|m| + 1 + n) % 64
        decreases PadZeros(|m|) - n
      {
        PadNotDone(|m|, n);
        Update([0x00]);
        n := n + 1;
        assert Zeros(n) == Zeros(n - 1) + [0x00];
        CountsPosition(count0, count1, |message|);
      }
      PadDone(|m|, n);
    }

    /** The digest of everything absorbed; the context is wiped. */
    method Final() returns (digest: seq<bv8>)
      requires Valid()
      modifies this, state, buffer
      ensures Shape() && digest == Sha1(old(message))
    {
      hide Compress, Absorb, Tail, ArrayHash, LengthBytes, HashBytes;
      ghost var m := message;
      var finalCount := CountToBytes(count0, count1);
      Update([0x80]);
      PadOut(m);
      Update(finalCount);
      assert message == Pad(m);
      digest := StateBytes(state);
      Wipe();
    }

    method Wipe()
      requires Shape()
      modifies this, state, buffer
    {
      for i := 0 to 64 {
        buffer[i] := 0;
      }
      for i := 0 to 5 {
        state[i] := 0;
      }
      count0, count1, message := 0, 0, [];
      Transform(state, buffer[..]);
    }
  }

  method CountToBytes(c0: nat, c1: nat) returns (b: seq<bv8>)
    requires c0 < TWO32 && c1 < TWO32
    ensures b == LengthBytes(c0 + TWO32 * c1)
  {
    hide CountByte, LengthBytes;
    CountBytes(c0, c1);
    b := [];
    for i := 0 to 8
      invariant |b| == i && forall k | 0 <= k < i :: b[k] == LengthBytes(c0 + TWO32 * c1)[k]
    {
      b := b + [CountByte(c0, c1, i)];
    }
  }

  lemma {:induction false} PadNotDone(len: nat, n: nat)
    requires n <= PadZeros(len) && (len + 1 + n) % 64 != 56
    ensures n < PadZeros(len)
  {
    PadTarget(len);
  }

  lemma {:induction false} PadTarget(len: nat)
    ensures (len + 1 + PadZeros(len)) % 64 == 56 && PadZeros(len) < 64
  {
    var q, r := len / 64, len % 64;
    assert len == 64 * q + r;
    assert len + 1 + PadZeros(len) == if r <= 55 then 64 * q + 56 else 64 * (q + 1) + 56;
  }

  lemma {:induction false} PadDone(len: nat, n: nat)
    requires n <= PadZeros(len) && (len + 1 + n) % 64 == 56
    ensures n == PadZeros(len)
  {
    PadTarget(len);
  }

  /** digest[i] = (state[i >> 2] >> ((3 - (i & 3)) * 8)) & 255 */
  method StateBytes(state: array<bv32>) returns (digest: seq<bv8>)
    requires state.Length == 5
    ensures digest == HashBytes(ArrayHash(state[..]))
  {
    hide WordBytes;
    digest := [];
    for i := 0 to 20
      invariant digest == HashBytes(ArrayHash(state[..]))[..i]
    {
      digest := digest + [WordBytes(state[i / 4])[i % 4]];
    }
  }

  /** memcpy(&buffer[at], src, |src|) */
  method Copy(buffer: array<bv8>, at: nat, src: seq<bv8>)
    requires at + |src| <= buffer.Length
    modifies buffer
    ensures buffer[..] == old(buffer[..at]) + src + old(buffer[at + |src|..])
  {
    for k := 0 to |src|
      invariant forall q | at <= q < at + k :: buffer[q] == src[q - at]
      invariant forall q | 0 <= q < buffer.Length && !(at <= q < at + k) :: buffer[q] == old(buffer[q])
    {
      buffer[at + k] := src[k];
    }
  }
}
