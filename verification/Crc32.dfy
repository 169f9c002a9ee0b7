// components/utils/crc32.c, against division by the reflected polynomial 0xEDB88320 one bit at a time
// (section 8 of RFC 1952).
module Crc32 {
  import opened CrcTables

  function Xor(x: bv32, y: bv32): bv32 { x ^ y }

  function Shr1(x: bv32): bv32 { x >> 1 }

  function Carry(c: bv32): bv32 { (c & 1) * 0xEDB88320 }

  /** One step of the division: shift right, and subtract the polynomial when a one falls out. */
  function Step(c: bv32): bv32 { Xor(Shr1(c), Carry(c)) }

  function Bit(b: bool): bv32 { if b then 1 else 0 }

  function Odd(w: bv32): bool { w & 1 == 1 }

  /** A message bit enters at the low end. */
  function FeedBit(c: bv32, b: bool): bv32 { Step(Xor(c, Bit(b))) }

  /** The reference: the message bits fed one by one. */
  function CrcBits(c: bv32, bits: seq<bool>): bv32
    decreases |bits|
  {
    if |bits| == 0 then c else CrcBits(FeedBit(c, bits[0]), bits[1..])
  }

  /** The n low bits of w, lowest first. */
  function WordBits(w: bv32, n: nat): (b: seq<bool>)
    ensures |b| == n
    decreases n
  {
    if n == 0 then [] else [Odd(w)] + WordBits(Shr1(w), n - 1)
  }

  function ByteBits(b: bv8): (r: seq<bool>)
    ensures |r| == 8
  {
    WordBits(b as bv32, 8)
  }

  function Bits(data: seq<bv8>): (b: seq<bool>)
    ensures |b| == 8 * |data|
    decreases |data|
  {
    if |data| == 0 then [] else ByteBits(data[0]) + Bits(data[1..])
  }

  function StepN(c: bv32, n: nat): bv32
    decreases n
  {
    if n == 0 then c else StepN(Step(c), n - 1)
  }

  function ShrN(w: bv32, n: nat): bv32
    decreases n
  {
    if n == 0 then w else ShrN(Shr1(w), n - 1)
  }

  /** The value the program reports for a whole message. */
  function Crc(data: seq<bv8>): bv32 { Xor(CrcBits(0xFFFFFFFF, Bits(data)), 0xFFFFFFFF) }

  // --- one division step over a sum ---

  lemma {:induction false} Assoc(x: bv32, y: bv32, z: bv32)
    ensures Xor(Xor(x, y), z) == Xor(x, Xor(y, z))
  {}

  lemma {:induction false} Comm(x: bv32, y: bv32)
    ensures Xor(x, y) == Xor(y, x)
  {}

  lemma {:induction false} XorSelf(x: bv32)
    ensures Xor(x, x) == 0 && Xor(x, 0) == x && Xor(0, x) == x
  {}

  lemma {:induction false} ShiftXor(c: bv32, w: bv32)
    ensures Shr1(Xor(c, w)) == Xor(Shr1(c), Shr1(w))
  {}

  lemma {:induction false} ShiftBit(c: bv32, b: bool)
    ensures Shr1(Xor(c, Bit(b))) == Shr1(c)
  {}

  lemma {:induction false} CarryBit(c: bv32, w: bv32)
    ensures Carry(Xor(c, w)) == Carry(Xor(c, Bit(Odd(w))))
  {}

  lemma {:induction false} FeedSplit(c: bv32, w: bv32)
    ensures Step(Xor(c, w)) == Xor(FeedBit(c, Odd(w)), Shr1(w))
  {
    hide Xor, Shr1, Carry, Bit, Odd;
    var (a, b, k) := (Shr1(c), Shr1(w), Carry(Xor(c, w)));
    ShiftXor(c, w);
    ShiftBit(c, Odd(w));
    CarryBit(c, w);
    Assoc(a, b, k);
    Comm(b, k);
    Assoc(a, k, b);
  }

  /** Dividing c + w is feeding the bits of w to c; what is left of w stays added. */
  lemma {:induction false} StepsFeed(c: bv32, w: bv32, n: nat)
    ensures StepN(Xor(c, w), n) == Xor(CrcBits(c, WordBits(w, n)), ShrN(w, n))
    decreases n
  {
    hide Xor, Step, FeedBit, Odd, Shr1;
    if n > 0 {
      FeedSplit(c, w);
      StepsFeed(FeedBit(c, Odd(w)), Shr1(w), n - 1);
      assert WordBits(w, n)[1..] == WordBits(Shr1(w), n - 1);
    }
  }

  // --- the table step ---

  function LowByte(x: bv32): bv8 { (x & 0xFF) as bv8 }

  function Above(x: bv32): bv32 { x & 0xFFFFFF00 }

  /** The table entry is eight division steps on the index. */
  lemma {:induction false} TableEntry(x: bv8)
    ensures Table32(x) == Step(Step(Step(Step(Step(Step(Step(Step(x as bv32))))))))
  {}

  lemma {:induction false} Step8(c: bv32)
    ensures StepN(c, 8) == Step(Step(Step(Step(Step(Step(Step(Step(c))))))))
  {
    hide Step;
    var (c1, c2) := (Step(c), Step(Step(c)));
    var (c3, c4) := (Step(c2), Step(Step(c2)));
    var (c5, c6) := (Step(c4), Step(Step(c4)));
    assert StepN(c6, 2) == Step(Step(c6));
    assert StepN(c4, 4) == StepN(c6, 2);
    assert StepN(c2, 6) == StepN(c4, 4);
    assert StepN(c, 8) == StepN(c2, 6);
  }

  function Shr8(w: bv32): bv32 { w >> 8 }

  lemma {:induction false} ShiftsBy8(w: bv32)
    ensures Shr1(Shr1(Shr1(Shr1(Shr1(Shr1(Shr1(Shr1(w)))))))) == Shr8(w)
  {}

  lemma {:induction false} ShrBy8(w: bv32)
    ensures ShrN(w, 8) == Shr8(w)
  {
    hide Shr1, Shr8;
    ShiftsBy8(w);
    var w2 := Shr1(Shr1(w));
    var w4 := Shr1(Shr1(w2));
    var w6 := Shr1(Shr1(w4));
    assert ShrN(w6, 2) == Shr1(Shr1(w6));
    assert ShrN(w4, 4) == ShrN(w6, 2);
    assert ShrN(w2, 6) == ShrN(w4, 4);
    assert ShrN(w, 8) == ShrN(w2, 6);
  }

  /** Zero bits fed to c are plain division steps. */
  lemma {:induction false} FeedZeros(c: bv32, n: nat)
    ensures CrcBits(c, WordBits(0, n)) == StepN(c, n)
    decreases n
  {
    hide Xor, Step, Shr1;
    ZeroWord();
    XorSelf(c);
    if n > 0 {
      FeedZeros(Step(c), n - 1);
      assert WordBits(0, n)[1..] == WordBits(0, n - 1);
    }
  }

  lemma {:induction false} ZeroWord()
    ensures Shr1(0) == 0 && !Odd(0)
  {}

  lemma {:induction false} AboveBits(x: bv32)
    ensures var h := Above(x); !Odd(h) && !Odd(Shr1(h)) && !Odd(Shr1(Shr1(h))) && !Odd(Shr1(Shr1(Shr1(h))))
    ensures var h := Shr1(Shr1(Shr1(Shr1(Above(x)))));
            !Odd(h) && !Odd(Shr1(h)) && !Odd(Shr1(Shr1(h))) && !Odd(Shr1(Shr1(Shr1(h))))
  {}

  lemma {:induction false} TwoBits(w: bv32, n: nat)
    ensures WordBits(w, n + 2) == [Odd(w), Odd(Shr1(w))] + WordBits(Shr1(Shr1(w)), n)
  {
    hide Odd, Shr1;
    assert WordBits(Shr1(w), n + 1) == [Odd(Shr1(w))] + WordBits(Shr1(Shr1(w)), n);
  }

  lemma {:induction false} AboveFeedsZeros(x: bv32)
    ensures WordBits(Above(x), 8) == WordBits(0, 8)
  {
    hide Odd, Shr1, Above, WordBits;
    ZeroWord();
    AboveBits(x);
    var h := Above(x);
    var h2 := Shr1(Shr1(h));
    var h4 := Shr1(Shr1(h2));
    var h6 := Shr1(Shr1(h4));
    TwoBits(h, 6);
    TwoBits(h2, 4);
    TwoBits(h4, 2);
    TwoBits(h6, 0);
    TwoBits(0, 6);
    TwoBits(0, 4);
    TwoBits(0, 2);
    TwoBits(0, 0);
    NoBits(Shr1(Shr1(h6)));
    NoBits(0);
  }

  lemma {:induction false} NoBits(w: bv32)
    ensures WordBits(w, 0) == []
  {}

  lemma {:induction false} LowAndAbove(x: bv32)
    ensures x == Xor(LowByte(x) as bv32, Above(x))
    ensures Shr8(Above(x)) == Shr8(x)
  {}

  lemma {:induction false} ByteEnters(c: bv32, b: bv8)
    ensures LowByte(Xor(c, b as bv32)) == LowByte(c) ^ b
  {}

  lemma {:induction false} ByteLeaves(c: bv32, b: bv8)
    ensures Shr8(Xor(c, b as bv32)) == Shr8(c)
    ensures Shr8(b as bv32) == 0
  {}

  /** ctx->crc = (ctx->crc >> 8) ^ Crc32Table[(ctx->crc & 0xFF) ^ *data++] */
  function FeedByte(c: bv32, b: bv8): bv32 { Xor(Shr8(c), Table32(LowByte(c) ^ b)) }

  /** One table lookup is the eight bits of the byte fed to the bitwise division. */
  lemma {:induction false} ByteIsEightBits(c: bv32, b: bv8)
    ensures FeedByte(c, b) == CrcBits(c, ByteBits(b))
  {
    hide Xor, Shr8, LowByte, Above, Table32, StepN, ShrN, WordBits, CrcBits, Step;
    var x := Xor(c, b as bv32);
    var (low, high) := (LowByte(x) as bv32, Above(x));
    LowAndAbove(x);
    ByteEnters(c, b);
    ByteLeaves(c, b);
    StepsFeed(c, b as bv32, 8);
    ShrBy8(b as bv32);
    XorSelf(CrcBits(c, ByteBits(b)));
    assert StepN(x, 8) == CrcBits(c, ByteBits(b));
    StepsFeed(low, high, 8);
    ShrBy8(high);
    AboveFeedsZeros(x);
    FeedZeros(low, 8);
    TableEntry(LowByte(x));
    Step8(low);
    Comm(StepN(low, 8), Shr8(x));
  }

  // --- pieces of a message ---

  lemma {:induction false} CrcBitsConcat(c: bv32, a: seq<bool>, b: seq<bool>)
    ensures CrcBits(c, a + b) == CrcBits(CrcBits(c, a), b)
    decreases |a|
  {
    hide FeedBit;
    if |a| == 0 {
      assert a + b == b;
    } else {
      assert (a + b)[1..] == a[1..] + b;
      CrcBitsConcat(FeedBit(c, a[0]), a[1..], b);
    }
  }

  lemma {:induction false} BitsConcat(a: seq<bv8>, b: seq<bv8>)
    ensures Bits(a + b) == Bits(a) + Bits(b)
    decreases |a|
  {
    hide ByteBits;
    if |a| == 0 {
      assert a + b == b;
    } else {
      assert (a + b)[1..] == a[1..] + b;
      BitsConcat(a[1..], b);
    }
  }

  lemma {:induction false} OneByte(b: bv8)
    ensures Bits([b]) == ByteBits(b)
  {
    hide ByteBits;
    assert [b][1..] == [];
    assert ByteBits(b) + Bits([]) == ByteBits(b);
  }

  lemma {:induction false} NextByte(c: bv32, data: seq<bv8>, i: nat)
    requires i < |data|
    ensures FeedByte(CrcBits(c, Bits(data[..i])), data[i]) == CrcBits(c, Bits(data[..i + 1]))
  {
    hide FeedByte, ByteBits, CrcBits;
    assert data[..i + 1] == data[..i] + [data[i]];
    BitsConcat(data[..i], [data[i]]);
    OneByte(data[i]);
    CrcBitsConcat(c, Bits(data[..i]), ByteBits(data[i]));
    ByteIsEightBits(CrcBits(c, Bits(data[..i])), data[i]);
  }

  class Crc32Context {
    var crc: bv32

    constructor () { crc := 0; }

    method Init()
      modifies this
      ensures crc == 0xFFFFFFFF
    {
      crc := 0xFFFFFFFF;
    }

    method Update(data: seq<bv8>)
      modifies this
      ensures crc == CrcBits(old(crc), Bits(data))
    {
      hide Xor, Shr8, LowByte, Table32, CrcBits, Bits;
      StartBits(crc, data);
      for i := 0 to |data|
        invariant crc == CrcBits(old(crc), Bits(data[..i]))
      {
        NextByte(old(crc), data, i);
        crc := Xor(Shr8(crc), Table32(LowByte(crc) ^ data[i]));
      }
      assert data[..|data|] == data;
    }

    method Final() returns (r: bv32)
      modifies this
      ensures r == crc == Xor(old(crc), 0xFFFFFFFF)
    {
      crc := Xor(crc, 0xFFFFFFFF);
      r := crc;
    }
  }

  lemma {:induction false} StartBits(c: bv32, data: seq<bv8>)
    ensures CrcBits(c, Bits(data[..0])) == c
  {}

  /** ln_crc32_signle_cal: its extra mask does nothing, and a negative length is an empty message. */
  method SingleCal(ptr: seq<bv8>, len: int) returns (r: bv32)
    requires len <= |ptr|
    ensures r == Crc(if len < 0 then [] else ptr[..len])
  {
    hide Xor, Shr8, Mask24, LowByte, Table32, FeedByte, CrcBits, Bits;
    var crc: bv32 := 0xFFFFFFFF;
    var p, n := 0, len;
    ghost var data := if len < 0 then [] else ptr[..len];
    StartBits(crc, data);
    while n > 0
      invariant 0 <= p <= |data| && (n > 0 ==> n == |data| - p) && (n <= 0 ==> p == |data|)
      invariant crc == CrcBits(0xFFFFFFFF, Bits(data[..p]))
    {
      NextByte(0xFFFFFFFF, data, p);
      MaskedByte(crc, ptr[p]);
      crc := Xor(Mask24(Shr8(crc)), Table32(LowByte(Xor(crc, ptr[p] as bv32))));
      p, n := p + 1, n - 1;
    }
    assert data[..p] == data;
    return Xor(crc, 0xFFFFFFFF);
  }

  function Mask24(x: bv32): bv32 { x & 0x00FFFFFF }

  lemma {:induction false} MaskedShift(c: bv32)
    ensures Mask24(Shr8(c)) == Shr8(c)
  {}

  lemma {:induction false} MaskedByte(c: bv32, b: bv8)
    ensures Xor(Mask24(Shr8(c)), Table32(LowByte(Xor(c, b as bv32)))) == FeedByte(c, b)
  {
    hide Xor, Shr8, Mask24, LowByte, Table32;
    MaskedShift(c);
    ByteEnters(c, b);
  }

  function Joined(pieces: seq<seq<bv8>>): seq<bv8> {
    if |pieces| == 0 then [] else Joined(pieces[..|pieces| - 1]) + pieces[|pieces| - 1]
  }

  /** Any way of splitting a message into updates gives the value of the one-call form. */
  method CrcOfPieces(pieces: seq<seq<bv8>>) returns (r: bv32, single: bv32)
    ensures r == single == Crc(Joined(pieces))
  {
    hide Xor, CrcBits, Bits;
    var ctx := new Crc32Context();
    ctx.Init();
    var whole := [];
    StartBits(0xFFFFFFFF, whole);
    assert whole[..0] == whole;
    for i := 0 to |pieces|
      invariant whole == Joined(pieces[..i])
      invariant ctx.crc == CrcBits(0xFFFFFFFF, Bits(whole))
    {
      BitsConcat(whole, pieces[i]);
      CrcBitsConcat(0xFFFFFFFF, Bits(whole), Bits(pieces[i]));
      ctx.Update(pieces[i]);
      whole := whole + pieces[i];
      assert pieces[..i + 1][..i] == pieces[..i];
    }
    assert pieces[..|pieces|] == pieces;
    r := ctx.Final();
    assert whole[..|whole|] == whole;
    single := SingleCal(whole, |whole|);
  }

  // --- two registers fed with the same bits, and a register fed with a word ---

  lemma {:induction false} CarryXor(x: bv32, y: bv32)
    ensures Carry(Xor(x, y)) == Xor(Carry(x), Carry(y))
  {}

  lemma {:induction false} SwapMiddle(a: bv32, b: bv32, c: bv32, d: bv32)
    ensures Xor(Xor(a, b), Xor(c, d)) == Xor(Xor(a, c), Xor(b, d))
  {
    hide Xor;
    Assoc(a, b, Xor(c, d));
    Assoc(b, c, d);
    Comm(b, c);
    Assoc(c, b, d);
    Assoc(a, c, Xor(b, d));
  }

  lemma {:induction false} StepXor(x: bv32, y: bv32)
    ensures Step(Xor(x, y)) == Xor(Step(x), Step(y))
  {
    hide Xor, Shr1, Carry;
    ShiftXor(x, y);
    CarryXor(x, y);
    SwapMiddle(Shr1(x), Carry(x), Shr1(y), Carry(y));
  }

  /** What separates two registers does not depend on the bits they are fed, as long as these are the same. */
  lemma {:induction false} Difference(a: bv32, b: bv32, s: seq<bool>)
    ensures Xor(CrcBits(a, s), CrcBits(b, s)) == StepN(Xor(a, b), |s|)
    decreases |s|
  {
    hide Xor, Step, Bit;
    if |s| > 0 {
      var x := Bit(s[0]);
      Difference(FeedBit(a, s[0]), FeedBit(b, s[0]), s[1..]);
      StepXor(Xor(a, x), Xor(b, x));
      SwapMiddle(a, x, b, x);
      XorSelf(x);
      XorSelf(Xor(a, b));
    }
  }

  lemma {:induction false} StepsAdd(c: bv32, m: nat, n: nat)
    ensures StepN(c, m + n) == StepN(StepN(c, m), n)
    decreases m
  {
    hide Step;
    if m > 0 {
      StepsAdd(Step(c), m - 1, n);
    }
  }

  lemma {:induction false} Shr8Xor(c: bv32, w: bv32)
    ensures Shr8(Xor(c, w)) == Xor(Shr8(c), Shr8(w)) && LowByte(Xor(c, w)) == LowByte(c) ^ LowByte(w)
  {}

  lemma {:induction false} NoByte(x: bv8)
    ensures x ^ 0 == x
  {}

  /** Eight steps on a sum feed the low byte of the word; the rest of the word stays added. */
  lemma {:induction false} LowByteFed(c: bv32, w: bv32)
    ensures StepN(Xor(c, w), 8) == Xor(CrcBits(c, ByteBits(LowByte(w))), Shr8(w))
  {
    hide Xor, Shr8, LowByte, Table32, CrcBits, StepN, WordBits;
    var x := Xor(c, w);
    ByteIsEightBits(x, 0);
    FeedZeros(x, 8);
    NoByte(LowByte(x));
    assert StepN(x, 8) == Xor(Shr8(x), Table32(LowByte(x)));
    Shr8Xor(c, w);
    ByteIsEightBits(c, LowByte(w));
    var t := Table32(LowByte(c) ^ LowByte(w));
    Assoc(Shr8(c), Shr8(w), t);
    Comm(Shr8(w), t);
    Assoc(Shr8(c), t, Shr8(w));
  }

  lemma {:induction false} NothingLeft(w: bv32)
    ensures Shr8(Shr8(Shr8(Shr8(w)))) == 0
  {}

  /** Feeding the four bytes of a word, lowest first, is 32 division steps on the sum. */
  lemma {:induction false} WordFed(c: bv32, w: bv32)
    ensures var (w1, w2, w3) := (Shr8(w), Shr8(Shr8(w)), Shr8(Shr8(Shr8(w))));
            CrcBits(c, Bits([LowByte(w), LowByte(w1), LowByte(w2), LowByte(w3)])) == StepN(Xor(c, w), 32)
  {
    hide Xor, Shr8, LowByte, CrcBits, StepN, ByteBits, Bits;
    var (w1, w2, w3) := (Shr8(w), Shr8(Shr8(w)), Shr8(Shr8(Shr8(w))));
    var (b0, b1, b2, b3) := (LowByte(w), LowByte(w1), LowByte(w2), LowByte(w3));
    var c1 := CrcBits(c, ByteBits(b0));
    var c2 := CrcBits(c1, ByteBits(b1));
    var c3 := CrcBits(c2, ByteBits(b2));
    var c4 := CrcBits(c3, ByteBits(b3));
    LowByteFed(c, w);
    LowByteFed(c1, w1);
    LowByteFed(c2, w2);
    LowByteFed(c3, w3);
    NothingLeft(w);
    XorSelf(c4);
    var x := Xor(c, w);
    StepsAdd(x, 8, 24);
    StepsAdd(StepN(x, 8), 8, 16);
    StepsAdd(StepN(StepN(x, 8), 8), 8, 8);
    FourBytes(c, b0, b1, b2, b3);
  }

  lemma {:induction false} FourBytes(c: bv32, b0: bv8, b1: bv8, b2: bv8, b3: bv8)
    ensures CrcBits(c, Bits([b0, b1, b2, b3])) ==
            CrcBits(CrcBits(CrcBits(CrcBits(c, ByteBits(b0)), ByteBits(b1)), ByteBits(b2)), ByteBits(b3))
  {
    hide CrcBits, ByteBits;
    assert [b0, b1, b2, b3][1..] == [b1, b2, b3] && [b1, b2, b3][1..] == [b2, b3] && [b2, b3][1..] == [b3];
    OneByte(b3);
    CrcBitsConcat(c, ByteBits(b0), Bits([b1, b2, b3]));
    var c1 := CrcBits(c, ByteBits(b0));
    CrcBitsConcat(c1, ByteBits(b1), Bits([b2, b3]));
    CrcBitsConcat(CrcBits(c1, ByteBits(b1)), ByteBits(b2), Bits([b3]));
  }

  lemma {:induction false} StepsInjective(x: bv32, y: bv32, n: nat)
    requires StepN(x, n) == StepN(y, n)
    ensures x == y
  {
    hide StepN, CrcBits;
    FeedZeros(x, n);
    FeedZeros(y, n);
    SuffixInjective(x, y, WordBits(0, n));
  }

  // --- a published value ---

  /** One table step on known values. */
  lemma {:induction false} KnownStep(data: seq<bv8>, i: nat, c: bv32, d: bv32)
    requires i < |data| && CrcBits(0xFFFFFFFF, Bits(data[..i])) == c && FeedByte(c, data[i]) == d
    ensures CrcBits(0xFFFFFFFF, Bits(data[..i + 1])) == d
  {
    hide CrcBits, Bits, FeedByte;
    NextByte(0xFFFFFFFF, data, i);
  }

  lemma {:induction false} CheckPart0(data: seq<bv8>)
    requires |data| == 9 && data[0..3] == [0x31, 0x32, 0x33]
    requires CrcBits(0xFFFFFFFF, Bits(data[..0])) == 0xFFFFFFFF
    ensures CrcBits(0xFFFFFFFF, Bits(data[..3])) == 0x77B79C2D
  {
    hide CrcBits, Bits;
    var three := data[0..3];
    assert data[0] == three[0] && data[1] == three[1] && data[2] == three[2];
    KnownStep(data, 0, 0xFFFFFFFF, 0x7C231048);
    KnownStep(data, 1, 0x7C231048, 0xB0ACBB32);
    KnownStep(data, 2, 0xB0ACBB32, 0x77B79C2D);
  }

  lemma {:induction false} CheckPart1(data: seq<bv8>)
    requires |data| == 9 && data[3..6] == [0x34, 0x35, 0x36]
    requires CrcBits(0xFFFFFFFF, Bits(data[..3])) == 0x77B79C2D
    ensures CrcBits(0xFFFFFFFF, Bits(data[..6])) == 0xF68D2C9E
  {
    hide CrcBits, Bits;
    var three := data[3..6];
    assert data[3] == three[0] && data[4] == three[1] && data[5] == three[2];
    KnownStep(data, 3, 0x77B79C2D, 0x641C1F5C);
    KnownStep(data, 4, 0x641C1F5C, 0x340AC5E3);
    KnownStep(data, 5, 0x340AC5E3, 0xF68D2C9E);
  }

  lemma {:induction false} CheckPart2(data: seq<bv8>)
    requires |data| == 9 && data[6..9] == [0x37, 0x38, 0x39]
    requires CrcBits(0xFFFFFFFF, Bits(data[..6])) == 0xF68D2C9E
    ensures CrcBits(0xFFFFFFFF, Bits(data[..9])) == 0x340BC6D9
  {
    hide CrcBits, Bits;
    var three := data[6..9];
    assert data[6] == three[0] && data[7] == three[1] && data[8] == three[2];
    KnownStep(data, 6, 0xF68D2C9E, 0xAFFC9660);
    KnownStep(data, 7, 0xAFFC9660, 0x651F2550);
    KnownStep(data, 8, 0x651F2550, 0x340BC6D9);
  }

  /** The check value of this CRC: that of the digits 1 to 9. */
  lemma {:induction false} CheckValue(data: seq<bv8>)
    requires data == [0x31, 0x32, 0x33, 0x34, 0x35, 0x36, 0x37, 0x38, 0x39]
    ensures Crc(data) == 0xCBF43926
  {
    hide CrcBits, Bits;
    StartBits(0xFFFFFFFF, data);
    CheckPart0(data);
    CheckPart1(data);
    CheckPart2(data);
    assert data[..9] == data;
  }

  // --- error detection ---

  lemma {:induction false} ShrXor(x: bv32, y: bv32, n: nat)
    ensures ShrN(Xor(x, y), n) == Xor(ShrN(x, n), ShrN(y, n))
    decreases n
  {
    hide Xor, Shr1;
    if n > 0 {
      ShiftXor(x, y);
      ShrXor(Shr1(x), Shr1(y), n - 1);
    }
  }

  lemma {:induction false} ShrMore(x: bv32, y: bv32, m: nat, n: nat)
    requires m <= n && ShrN(x, m) == ShrN(y, m)
    ensures ShrN(x, n) == ShrN(y, n)
    decreases m
  {
    hide Shr1;
    if m > 0 {
      ShrMore(Shr1(x), Shr1(y), m - 1, n - 1);
    }
  }

  lemma {:induction false} ShrAdd(x: bv32, m: nat, n: nat)
    ensures ShrN(x, m + n) == ShrN(ShrN(x, m), n)
    decreases m
  {
    hide Shr1;
    if m > 0 {
      ShrAdd(Shr1(x), m - 1, n);
    }
  }

  lemma {:induction false} XorCancel(x: bv32, y: bv32, k: bv32)
    requires Xor(x, k) == Xor(y, k)
    ensures x == y
  {
    hide Xor;
    Assoc(x, k, k);
    Assoc(y, k, k);
    XorSelf(k);
    XorSelf(x);
    XorSelf(y);
  }

  function Top(w: bv32): bool { w >= 0x80000000 }

  lemma {:induction false} TopByShifts(w: bv32)
    ensures Top(w) == (Shr1(Shr1(Shr1(Shr1(Shr1(Shr1(Shr1(Shr8(Shr8(Shr8(w)))))))))) != 0)
  {}

  lemma {:induction false} ShrBy31(w: bv32)
    ensures Top(w) == (ShrN(w, 31) != 0)
  {
    hide Shr1, Shr8, ShrN, Top;
    TopByShifts(w);
    ShrBy8(w);
    ShrBy8(Shr8(w));
    ShrBy8(Shr8(Shr8(w)));
    ShrAdd(w, 8, 23);
    ShrAdd(Shr8(w), 8, 15);
    ShrAdd(Shr8(Shr8(w)), 8, 7);
    ShrBy7(Shr8(Shr8(Shr8(w))));
  }

  lemma {:induction false} ShrBy7(w: bv32)
    ensures ShrN(w, 7) == Shr1(Shr1(Shr1(Shr1(Shr1(Shr1(Shr1(w)))))))
  {
    hide Shr1;
    var w2 := Shr1(Shr1(w));
    var w4 := Shr1(Shr1(w2));
    assert ShrN(w4, 3) == Shr1(Shr1(Shr1(w4)));
    assert ShrN(w2, 5) == ShrN(w4, 3);
    assert ShrN(w, 7) == ShrN(w2, 5);
  }

  /** The polynomial has its top bit set, so the bit that fell out can be read off the result. */
  lemma {:induction false} TopOfStep(c: bv32)
    ensures Top(Step(c)) == Odd(c)
  {}

  lemma {:induction false} OddBit(c: bv32, b: bool)
    ensures Odd(Xor(c, Bit(b))) == (Odd(c) != b)
  {}

  lemma {:induction false} CarryOfOdd(x: bv32, y: bv32)
    requires Odd(x) == Odd(y)
    ensures Carry(x) == Carry(y)
  {}

  lemma {:induction false} OddAndShift(x: bv32, y: bv32)
    requires Odd(x) == Odd(y) && Shr1(x) == Shr1(y)
    ensures x == y
  {}

  /** If two states agree above bit n <= 31 after one bit each, they agreed above bit n + 1 before. */
  lemma {:induction false} Backwards(a: bv32, b: bv32, x: bool, y: bool, n: nat)
    requires n <= 31 && ShrN(FeedBit(a, x), n) == ShrN(FeedBit(b, y), n)
    ensures (Odd(a) != x) == (Odd(b) != y)
    ensures ShrN(a, n + 1) == ShrN(b, n + 1)
  {
    hide Xor, Shr1, Carry, Odd, Top, Bit;
    var (p, q) := (Xor(a, Bit(x)), Xor(b, Bit(y)));
    ShrMore(Step(p), Step(q), n, 31);
    ShrBy31(Step(p));
    ShrBy31(Step(q));
    TopOfStep(p);
    TopOfStep(q);
    OddBit(a, x);
    OddBit(b, y);
    CarryOfOdd(p, q);
    ShiftBit(a, x);
    ShiftBit(b, y);
    ShrXor(Shr1(a), Carry(p), n);
    ShrXor(Shr1(b), Carry(q), n);
    XorCancel(ShrN(Shr1(a), n), ShrN(Shr1(b), n), ShrN(Carry(p), n));
  }

  lemma {:induction false} BackwardsMany(a: bv32, b: bv32, x: seq<bool>, y: seq<bool>)
    requires |x| == |y| <= 32 && CrcBits(a, x) == CrcBits(b, y)
    ensures ShrN(a, |x|) == ShrN(b, |x|)
    decreases |x|
  {
    hide FeedBit, Odd;
    if |x| > 0 {
      BackwardsMany(FeedBit(a, x[0]), FeedBit(b, y[0]), x[1..], y[1..]);
      Backwards(a, b, x[0], y[0], |x| - 1);
    }
  }

  /** From one state, two different bit strings of equal length up to 32 lead to different states. */
  lemma {:induction false} WindowInjective(c: bv32, x: seq<bool>, y: seq<bool>)
    requires |x| == |y| <= 32 && CrcBits(c, x) == CrcBits(c, y)
    ensures x == y
    decreases |x|
  {
    hide FeedBit, Odd;
    if |x| > 0 {
      BackwardsMany(FeedBit(c, x[0]), FeedBit(c, y[0]), x[1..], y[1..]);
      Backwards(c, c, x[0], y[0], |x| - 1);
      WindowInjective(FeedBit(c, x[0]), x[1..], y[1..]);
    }
  }

  /** Feeding the same bits never merges two states. */
  lemma {:induction false} SuffixInjective(a: bv32, b: bv32, s: seq<bool>)
    requires CrcBits(a, s) == CrcBits(b, s)
    ensures a == b
    decreases |s|
  {
    hide FeedBit, Odd, Shr1;
    if |s| > 0 {
      SuffixInjective(FeedBit(a, s[0]), FeedBit(b, s[0]), s[1..]);
      Backwards(a, b, s[0], s[0], 0);
      assert ShrN(a, 1) == Shr1(a) && ShrN(b, 1) == Shr1(b);
      OddAndShift(a, b);
    }
  }

  /** An error burst of at most 32 bits, anywhere in a message of any length, always changes the value. */
  lemma {:induction false} BurstDetected(c: bv32, p: seq<bool>, x: seq<bool>, y: seq<bool>, s: seq<bool>)
    requires |x| == |y| <= 32 && x != y
    ensures CrcBits(c, p + x + s) != CrcBits(c, p + y + s)
  {
    hide CrcBits;
    CrcBitsConcat(c, p + x, s);
    CrcBitsConcat(c, p + y, s);
    CrcBitsConcat(c, p, x);
    CrcBitsConcat(c, p, y);
    if CrcBits(c, p + x + s) == CrcBits(c, p + y + s) {
      SuffixInjective(CrcBits(c, p + x), CrcBits(c, p + y), s);
      WindowInjective(CrcBits(c, p), x, y);
    }
  }

  lemma {:induction false} ByteBitsInjective(a: bv8, b: bv8)
    requires ByteBits(a) == ByteBits(b)
    ensures a == b
  {
    hide CrcBits, StepN, ShrN, WordBits, Xor;
    var (v, w) := (a as bv32, b as bv32);
    StepsFeed(0, v, 8);
    StepsFeed(0, w, 8);
    ShrBy8(v);
    ShrBy8(w);
    ByteLeaves(0, a);
    ByteLeaves(0, b);
    XorSelf(v);
    XorSelf(w);
    FeedZeros(v, 8);
    FeedZeros(w, 8);
    SuffixInjective(v, w, WordBits(0, 8));
    WideInjective(a, b);
  }

  lemma {:induction false} WideInjective(a: bv8, b: bv8)
    requires a as bv32 == b as bv32
    ensures a == b
  {}

  lemma {:induction false} BitsInjective(x: seq<bv8>, y: seq<bv8>)
    requires |x| == |y| && Bits(x) == Bits(y)
    ensures x == y
    decreases |x|
  {
    hide ByteBits;
    if |x| > 0 {
      assert Bits(x)[..8] == ByteBits(x[0]) && Bits(y)[..8] == ByteBits(y[0]);
      assert Bits(x)[8..] == Bits(x[1..]) && Bits(y)[8..] == Bits(y[1..]);
      ByteBitsInjective(x[0], y[0]);
      BitsInjective(x[1..], y[1..]);
    }
  }

  /** Messages that differ only inside four consecutive bytes have different CRC-32 values. */
  lemma {:induction false} FourBytesDetected(p: seq<bv8>, x: seq<bv8>, y: seq<bv8>, s: seq<bv8>)
    requires |x| == |y| <= 4 && x != y
    ensures Crc(p + x + s) != Crc(p + y + s)
  {
    hide CrcBits, Bits, Xor;
    BitsConcat(p + x, s);
    BitsConcat(p + y, s);
    BitsConcat(p, x);
    BitsConcat(p, y);
    if Bits(x) == Bits(y) {
      BitsInjective(x, y);
    }
    BurstDetected(0xFFFFFFFF, Bits(p), Bits(x), Bits(y), Bits(s));
    if Crc(p + x + s) == Crc(p + y + s) {
      XorCancel(CrcBits(0xFFFFFFFF, Bits(p + x + s)), CrcBits(0xFFFFFFFF, Bits(p + y + s)), 0xFFFFFFFF);
    }
  }
}
