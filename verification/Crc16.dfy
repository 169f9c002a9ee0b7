// components/utils/crc16.c, against division by the polynomial 0x1021 one bit at a time, high bit first.
module Crc16 {
  import opened CrcTables

  function Xor(x: bv16, y: bv16): bv16 { x ^ y }

  function Shl1(x: bv16): bv16 { x << 1 }

  function Carry(c: bv16): bv16 { (c >> 15) * 0x1021 }

  /** One step of the division: shift left, and subtract the polynomial when a one falls out. */
  function Step(c: bv16): bv16 { Xor(Shl1(c), Carry(c)) }

  function Bit(b: bool): bv16 { if b then 0x8000 else 0 }

  function High(w: bv16): bool { w >= 0x8000 }

  /** A message bit enters at the high end. */
  function FeedBit(c: bv16, b: bool): bv16 { Step(Xor(c, Bit(b))) }

  /** The reference: the message bits fed one by one. */
  function CrcBits(c: bv16, bits: seq<bool>): bv16
    decreases |bits|
  {
    if |bits| == 0 then c else CrcBits(FeedBit(c, bits[0]), bits[1..])
  }

  /** The n high bits of w, highest first. */
  function WordBits(w: bv16, n: nat): (b: seq<bool>)
    ensures |b| == n
    decreases n
  {
    if n == 0 then [] else [High(w)] + WordBits(Shl1(w), n - 1)
  }

  function Raised(b: bv8): bv16 { (b as bv16) << 8 }

  function ByteBits(b: bv8): (r: seq<bool>)
    ensures |r| == 8
  {
    WordBits(Raised(b), 8)
  }

  function Bits(data: seq<bv8>): (b: seq<bool>)
    ensures |b| == 8 * |data|
    decreases |data|
  {
    if |data| == 0 then [] else ByteBits(data[0]) + Bits(data[1..])
  }

  function StepN(c: bv16, n: nat): bv16
    decreases n
  {
    if n == 0 then c else StepN(Step(c), n - 1)
  }

  function ShlN(w: bv16, n: nat): bv16
    decreases n
  {
    if n == 0 then w else ShlN(Shl1(w), n - 1)
  }

  /** The value for a whole message. */
  function Crc(data: seq<bv8>): bv16 { CrcBits(0, Bits(data)) }

  // --- one division step over a sum ---

  lemma {:induction false} Assoc(x: bv16, y: bv16, z: bv16)
    ensures Xor(Xor(x, y), z) == Xor(x, Xor(y, z))
  {}

  lemma {:induction false} Comm(x: bv16, y: bv16)
    ensures Xor(x, y) == Xor(y, x)
  {}

  lemma {:induction false} XorSelf(x: bv16)
    ensures Xor(x, x) == 0 && Xor(x, 0) == x && Xor(0, x) == x
  {}

  lemma {:induction false} ShiftXor(c: bv16, w: bv16)
    ensures Shl1(Xor(c, w)) == Xor(Shl1(c), Shl1(w))
  {}

  lemma {:induction false} ShiftBit(c: bv16, b: bool)
    ensures Shl1(Xor(c, Bit(b))) == Shl1(c)
  {}

  lemma {:induction false} CarryBit(c: bv16, w: bv16)
    ensures Carry(Xor(c, w)) == Carry(Xor(c, Bit(High(w))))
  {}

  lemma {:induction false} FeedSplit(c: bv16, w: bv16)
    ensures Step(Xor(c, w)) == Xor(FeedBit(c, High(w)), Shl1(w))
  {
    hide Xor, Shl1, Carry, Bit, High;
    var (a, b, k) := (Shl1(c), Shl1(w), Carry(Xor(c, w)));
    ShiftXor(c, w);
    ShiftBit(c, High(w));
    CarryBit(c, w);
    Assoc(a, b, k);
    Comm(b, k);
    Assoc(a, k, b);
  }

  /** Dividing c + w is feeding the bits of w to c; what is left of w stays added. */
  lemma {:induction false} StepsFeed(c: bv16, w: bv16, n: nat)
    ensures StepN(Xor(c, w), n) == Xor(CrcBits(c, WordBits(w, n)), ShlN(w, n))
    decreases n
  {
    hide Xor, Step, FeedBit, High, Shl1;
    if n > 0 {
      FeedSplit(c, w);
      StepsFeed(FeedBit(c, High(w)), Shl1(w), n - 1);
      assert WordBits(w, n)[1..] == WordBits(Shl1(w), n - 1);
    }
  }

  // --- the table step ---

  function HighByte(x: bv16): bv8 { (x >> 8) as bv8 }

  function Below(x: bv16): bv16 { x & 0x00FF }

  function Shl8(w: bv16): bv16 { w << 8 }

  /** The table entry is eight division steps on the index in the high byte. */
  lemma {:induction false} TableEntry(x: bv8)
    ensures Table16(x) == Step(Step(Step(Step(Step(Step(Step(Step(Raised(x)))))))))
  {}

  lemma {:induction false} Step8(c: bv16)
    ensures StepN(c, 8) == Step(Step(Step(Step(Step(Step(Step(Step(c))))))))
  {
    hide Step;
    var (c2, c4) := (Step(Step(c)), Step(Step(Step(Step(c)))));
    var c6 := Step(Step(c4));
    assert StepN(c6, 2) == Step(Step(c6));
    assert StepN(c4, 4) == StepN(c6, 2);
    assert StepN(c2, 6) == StepN(c4, 4);
    assert StepN(c, 8) == StepN(c2, 6);
  }

  lemma {:induction false} ShiftsBy8(w: bv16)
    ensures Shl1(Shl1(Shl1(Shl1(Shl1(Shl1(Shl1(Shl1(w)))))))) == Shl8(w)
  {}

  lemma {:induction false} ShlBy8(w: bv16)
    ensures ShlN(w, 8) == Shl8(w)
  {
    hide Shl1, Shl8;
    ShiftsBy8(w);
    var w2 := Shl1(Shl1(w));
    var w4 := Shl1(Shl1(w2));
    var w6 := Shl1(Shl1(w4));
    assert ShlN(w6, 2) == Shl1(Shl1(w6));
    assert ShlN(w4, 4) == ShlN(w6, 2);
    assert ShlN(w2, 6) == ShlN(w4, 4);
    assert ShlN(w, 8) == ShlN(w2, 6);
  }

  lemma {:induction false} ZeroWord()
    ensures Shl1(0) == 0 && !High(0)
  {}

  /** Zero bits fed to c are plain division steps. */
  lemma {:induction false} FeedZeros(c: bv16, n: nat)
    ensures CrcBits(c, WordBits(0, n)) == StepN(c, n)
    decreases n
  {
    hide Xor, Step, Shl1;
    ZeroWord();
    XorSelf(c);
    if n > 0 {
      FeedZeros(Step(c), n - 1);
      assert WordBits(0, n)[1..] == WordBits(0, n - 1);
    }
  }

  lemma {:induction false} BelowBits(x: bv16)
    ensures var l := Below(x); !High(l) && !High(Shl1(l)) && !High(Shl1(Shl1(l))) && !High(Shl1(Shl1(Shl1(l))))
    ensures var l := Shl1(Shl1(Shl1(Shl1(Below(x)))));
            !High(l) && !High(Shl1(l)) && !High(Shl1(Shl1(l))) && !High(Shl1(Shl1(Shl1(l))))
  {}

  lemma {:induction false} TwoBits(w: bv16, n: nat)
    ensures WordBits(w, n + 2) == [High(w), High(Shl1(w))] + WordBits(Shl1(Shl1(w)), n)
  {
    hide High, Shl1;
    assert WordBits(Shl1(w), n + 1) == [High(Shl1(w))] + WordBits(Shl1(Shl1(w)), n);
  }

  lemma {:induction false} NoBits(w: bv16)
    ensures WordBits(w, 0) == []
  {}

  lemma {:induction false} BelowFeedsZeros(x: bv16)
    ensures WordBits(Below(x), 8) == WordBits(0, 8)
  {
    hide High, Shl1, Below, WordBits;
    ZeroWord();
    BelowBits(x);
    var l := Below(x);
    var l2 := Shl1(Shl1(l));
    var l4 := Shl1(Shl1(l2));
    var l6 := Shl1(Shl1(l4));
    TwoBits(l, 6);
    TwoBits(l2, 4);
    TwoBits(l4, 2);
    TwoBits(l6, 0);
    TwoBits(0, 6);
    TwoBits(0, 4);
    TwoBits(0, 2);
    TwoBits(0, 0);
    NoBits(Shl1(Shl1(l6)));
    NoBits(0);
  }

  lemma {:induction false} HighAndBelow(x: bv16)
    ensures x == Xor(Raised(HighByte(x)), Below(x))
    ensures Shl8(Below(x)) == Shl8(x)
  {}

  lemma {:induction false} ByteEnters(c: bv16, b: bv8)
    ensures HighByte(Xor(c, Raised(b))) == HighByte(c) ^ b
  {}

  lemma {:induction false} ByteLeaves(c: bv16, b: bv8)
    ensures Shl8(Xor(c, Raised(b))) == Shl8(c)
    ensures Shl8(Raised(b)) == 0
  {}

  /** crc = (crc << 8) ^ crc16tab[((crc >> 8) ^ *buf++) & 0x00FF] */
  function FeedByte(c: bv16, b: bv8): bv16 { Xor(Shl8(c), Table16(HighByte(c) ^ b)) }

  /** One table lookup is the eight bits of the byte fed to the bitwise division. */
  lemma {:induction false} ByteIsEightBits(c: bv16, b: bv8)
    ensures FeedByte(c, b) == CrcBits(c, ByteBits(b))
  {
    hide Xor, Shl8, HighByte, Below, Raised, Table16, StepN, ShlN, WordBits, CrcBits, Step;
    var x := Xor(c, Raised(b));
    var (high, low) := (Raised(HighByte(x)), Below(x));
    HighAndBelow(x);
    ByteEnters(c, b);
    ByteLeaves(c, b);
    StepsFeed(c, Raised(b), 8);
    ShlBy8(Raised(b));
    XorSelf(CrcBits(c, ByteBits(b)));
    assert StepN(x, 8) == CrcBits(c, ByteBits(b));
    StepsFeed(high, low, 8);
    ShlBy8(low);
    BelowFeedsZeros(x);
    FeedZeros(high, 8);
    TableEntry(HighByte(x));
    Step8(high);
    Comm(StepN(high, 8), Shl8(x));
  }

  // --- pieces of a message ---

  lemma {:induction false} CrcBitsConcat(c: bv16, a: seq<bool>, b: seq<bool>)
    ensures CrcBits(c, a + b) == CrcBits(CrcBits(c, a), b)
    decreases |a|
  {
    hide FeedBit;
    if |a| == 0 {
      assert a + b == b;
    } else {
      assert (a + b)[1..] == a[1..] + b;
      CrcBitsConcat(FeedBit(c, a[0]), a[1..], b);
    }
  }

  lemma {:induction false} BitsConcat(a: seq<bv8>, b: seq<bv8>)
    ensures Bits(a + b) == Bits(a) + Bits(b)
    decreases |a|
  {
    hide ByteBits;
    if |a| == 0 {
      assert a + b == b;
    } else {
      assert (a + b)[1..] == a[1..] + b;
      BitsConcat(a[1..], b);
    }
  }

  lemma {:induction false} OneByte(b: bv8)
    ensures Bits([b]) == ByteBits(b)
  {
    hide ByteBits;
    assert [b][1..] == [];
    assert ByteBits(b) + Bits([]) == ByteBits(b);
  }

  lemma {:induction false} AppendByte(m: seq<bv8>, b: bv8)
    ensures Crc(m + [b]) == FeedByte(Crc(m), b)
  {
    hide FeedByte, ByteBits, CrcBits;
    BitsConcat(m, [b]);
    OneByte(b);
    CrcBitsConcat(0, Bits(m), ByteBits(b));
    ByteIsEightBits(Crc(m), b);
  }

  /** crc16_ccitt: a negative length is an empty message. */
  method CrcCcitt(buf: seq<bv8>, len: int) returns (crc: bv16)
    requires len <= |buf|
    ensures crc == Crc(if len < 0 then [] else buf[..len])
  {
    hide Xor, Shl8, HighByte, Table16, Crc;
    crc := 0;
    EmptyMessage();
    for counter := 0 to if len < 0 then 0 else len
      invariant crc == Crc(buf[..counter])
    {
      AppendByte(buf[..counter], buf[counter]);
      assert buf[..counter + 1] == buf[..counter] + [buf[counter]];
      crc := Xor(Shl8(crc), Table16(HighByte(crc) ^ buf[counter]));
    }
  }

  lemma {:induction false} EmptyMessage()
    ensures Crc([]) == 0
  {}

  // --- appending the value ---

  function Low8(x: bv16): bv8 { (x & 0x00FF) as bv8 }

  lemma {:induction false} ZeroIndex(b: bv8)
    ensures b ^ b == 0
  {}

  lemma {:induction false} ZeroEntry(c: bv16)
    ensures Table16(0) == 0 && Xor(c, 0) == c
  {}

  lemma {:induction false} ShiftedOut(c: bv16)
    ensures HighByte(Shl8(c)) == Low8(c) && Shl8(Shl8(c)) == 0
  {}

  /** A message followed by its own value, high byte first, has value zero. */
  lemma {:induction false} AppendedValue(m: seq<bv8>)
    ensures Crc(m + [HighByte(Crc(m))] + [Low8(Crc(m))]) == 0
  {
    hide Xor, Shl8, HighByte, Low8, Table16, Crc;
    var c := Crc(m);
    AppendByte(m, HighByte(c));
    ZeroIndex(HighByte(c));
    ZeroEntry(Shl8(c));
    AppendByte(m + [HighByte(c)], Low8(c));
    ShiftedOut(c);
    ZeroIndex(Low8(c));
    ZeroEntry(0);
  }

  // --- a published value ---

  /** The check value of this CRC (CRC-16/XMODEM): that of the digits 1 to 9. */
  lemma {:induction false} CheckValue(data: seq<bv8>)
    requires data == [0x31, 0x32, 0x33, 0x34, 0x35, 0x36, 0x37, 0x38, 0x39]
    ensures Crc(data) == 0x31C3
  {
    hide Crc;
    EmptyMessage();
    assert data[..0] == [];
    KnownStep(data, 0, 0x0000, 0x2672);
    KnownStep(data, 1, 0x2672, 0x20B5);
    KnownStep(data, 2, 0x20B5, 0x9752);
    KnownStep(data, 3, 0x9752, 0xD789);
    KnownStep(data, 4, 0xD789, 0x546C);
    KnownStep(data, 5, 0x546C, 0x20E4);
    KnownStep(data, 6, 0x20E4, 0x86D6);
    KnownStep(data, 7, 0x86D6, 0x9015);
    KnownStep(data, 8, 0x9015, 0x31C3);
    assert data[..9] == data;
  }

  lemma {:induction false} KnownStep(data: seq<bv8>, i: nat, c: bv16, d: bv16)
    requires i < |data| && Crc(data[..i]) == c && FeedByte(c, data[i]) == d
    ensures Crc(data[..i + 1]) == d
  {
    hide Crc, FeedByte;
    AppendByte(data[..i], data[i]);
    assert data[..i + 1] == data[..i] + [data[i]];
  }

  // --- error detection ---

  lemma {:induction false} ShlXor(x: bv16, y: bv16, n: nat)
    ensures ShlN(Xor(x, y), n) == Xor(ShlN(x, n), ShlN(y, n))
    decreases n
  {
    hide Xor, Shl1;
    if n > 0 {
      ShiftXor(x, y);
      ShlXor(Shl1(x), Shl1(y), n - 1);
    }
  }

  lemma {:induction false} ShlMore(x: bv16, y: bv16, m: nat, n: nat)
    requires m <= n && ShlN(x, m) == ShlN(y, m)
    ensures ShlN(x, n) == ShlN(y, n)
    decreases m
  {
    hide Shl1;
    if m > 0 {
      ShlMore(Shl1(x), Shl1(y), m - 1, n - 1);
    }
  }

  lemma {:induction false} ShlAdd(x: bv16, m: nat, n: nat)
    ensures ShlN(x, m + n) == ShlN(ShlN(x, m), n)
    decreases m
  {
    hide Shl1;
    if m > 0 {
      ShlAdd(Shl1(x), m - 1, n);
    }
  }

  lemma {:induction false} XorCancel(x: bv16, y: bv16, k: bv16)
    requires Xor(x, k) == Xor(y, k)
    ensures x == y
  {
    hide Xor;
    Assoc(x, k, k);
    Assoc(y, k, k);
    XorSelf(k);
    XorSelf(x);
    XorSelf(y);
  }

  function Last(w: bv16): bool { w & 1 == 1 }

  lemma {:induction false} LastByShifts(w: bv16)
    ensures Last(w) == (Shl1(Shl1(Shl1(Shl1(Shl1(Shl1(Shl1(Shl8(w)))))))) != 0)
  {}

  lemma {:induction false} ShlBy7(w: bv16)
    ensures ShlN(w, 7) == Shl1(Shl1(Shl1(Shl1(Shl1(Shl1(Shl1(w)))))))
  {
    hide Shl1;
    var w2 := Shl1(Shl1(w));
    var w4 := Shl1(Shl1(w2));
    assert ShlN(w4, 3) == Shl1(Shl1(Shl1(w4)));
    assert ShlN(w2, 5) == ShlN(w4, 3);
    assert ShlN(w, 7) == ShlN(w2, 5);
  }

  lemma {:induction false} ShlBy15(w: bv16)
    ensures Last(w) == (ShlN(w, 15) != 0)
  {
    hide Shl1, Shl8, ShlN, Last;
    LastByShifts(w);
    ShlBy8(w);
    ShlAdd(w, 8, 7);
    ShlBy7(Shl8(w));
  }

  /** The polynomial has its last bit set, so the bit that fell out can be read off the result. */
  lemma {:induction false} LastOfStep(c: bv16)
    ensures Last(Step(c)) == High(c)
  {}

  lemma {:induction false} HighBit(c: bv16, b: bool)
    ensures High(Xor(c, Bit(b))) == (High(c) != b)
  {}

  lemma {:induction false} CarryOfHigh(x: bv16, y: bv16)
    requires High(x) == High(y)
    ensures Carry(x) == Carry(y)
  {}

  lemma {:induction false} HighAndShift(x: bv16, y: bv16)
    requires High(x) == High(y) && Shl1(x) == Shl1(y)
    ensures x == y
  {}

  /** If two states agree below bit 16 - n, n <= 15, after one bit each, they agreed below bit 15 - n before. */
  lemma {:induction false} Backwards(a: bv16, b: bv16, x: bool, y: bool, n: nat)
    requires n <= 15 && ShlN(FeedBit(a, x), n) == ShlN(FeedBit(b, y), n)
    ensures (High(a) != x) == (High(b) != y)
    ensures ShlN(a, n + 1) == ShlN(b, n + 1)
  {
    hide Xor, Shl1, Carry, High, Last, Bit;
    var (p, q) := (Xor(a, Bit(x)), Xor(b, Bit(y)));
    ShlMore(Step(p), Step(q), n, 15);
    ShlBy15(Step(p));
    ShlBy15(Step(q));
    LastOfStep(p);
    LastOfStep(q);
    HighBit(a, x);
    HighBit(b, y);
    CarryOfHigh(p, q);
    ShiftBit(a, x);
    ShiftBit(b, y);
    ShlXor(Shl1(a), Carry(p), n);
    ShlXor(Shl1(b), Carry(q), n);
    XorCancel(ShlN(Shl1(a), n), ShlN(Shl1(b), n), ShlN(Carry(p), n));
  }

  lemma {:induction false} BackwardsMany(a: bv16, b: bv16, x: seq<bool>, y: seq<bool>)
    requires |x| == |y| <= 16 && CrcBits(a, x) == CrcBits(b, y)
    ensures ShlN(a, |x|) == ShlN(b, |x|)
    decreases |x|
  {
    hide FeedBit, High;
    if |x| > 0 {
      BackwardsMany(FeedBit(a, x[0]), FeedBit(b, y[0]), x[1..], y[1..]);
      Backwards(a, b, x[0], y[0], |x| - 1);
    }
  }

  /** From one state, two different bit strings of equal length up to 16 lead to different states. */
  lemma {:induction false} WindowInjective(c: bv16, x: seq<bool>, y: seq<bool>)
    requires |x| == |y| <= 16 && CrcBits(c, x) == CrcBits(c, y)
    ensures x == y
    decreases |x|
  {
    hide FeedBit, High;
    if |x| > 0 {
      BackwardsMany(FeedBit(c, x[0]), FeedBit(c, y[0]), x[1..], y[1..]);
      Backwards(c, c, x[0], y[0], |x| - 1);
      WindowInjective(FeedBit(c, x[0]), x[1..], y[1..]);
    }
  }

  /** Feeding the same bits never merges two states. */
  lemma {:induction false} SuffixInjective(a: bv16, b: bv16, s: seq<bool>)
    requires CrcBits(a, s) == CrcBits(b, s)
    ensures a == b
    decreases |s|
  {
    hide FeedBit, High, Shl1;
    if |s| > 0 {
      SuffixInjective(FeedBit(a, s[0]), FeedBit(b, s[0]), s[1..]);
      Backwards(a, b, s[0], s[0], 0);
      assert ShlN(a, 1) == Shl1(a) && ShlN(b, 1) == Shl1(b);
      HighAndShift(a, b);
    }
  }

  /** An error burst of at most 16 bits, anywhere in a message of any length, always changes the value. */
  lemma {:induction false} BurstDetected(c: bv16, p: seq<bool>, x: seq<bool>, y: seq<bool>, s: seq<bool>)
    requires |x| == |y| <= 16 && x != y
    ensures CrcBits(c, p + x + s) != CrcBits(c, p + y + s)
  {
    hide CrcBits;
    CrcBitsConcat(c, p + x, s);
    CrcBitsConcat(c, p + y, s);
    CrcBitsConcat(c, p, x);
    CrcBitsConcat(c, p, y);
    if CrcBits(c, p + x + s) == CrcBits(c, p + y + s) {
      SuffixInjective(CrcBits(c, p + x), CrcBits(c, p + y), s);
      WindowInjective(CrcBits(c, p), x, y);
    }
  }

  lemma {:induction false} RaisedInjective(a: bv8, b: bv8)
    requires Raised(a) == Raised(b)
    ensures a == b
  {}

  lemma {:induction false} ByteBitsInjective(a: bv8, b: bv8)
    requires ByteBits(a) == ByteBits(b)
    ensures a == b
  {
    hide CrcBits, StepN, ShlN, WordBits, Xor, Raised;
    var (v, w) := (Raised(a), Raised(b));
    StepsFeed(0, v, 8);
    StepsFeed(0, w, 8);
    ShlBy8(v);
    ShlBy8(w);
    ByteLeaves(0, a);
    ByteLeaves(0, b);
    XorSelf(v);
    XorSelf(w);
    FeedZeros(v, 8);
    FeedZeros(w, 8);
    SuffixInjective(v, w, WordBits(0, 8));
    RaisedInjective(a, b);
  }

  lemma {:induction false} BitsInjective(x: seq<bv8>, y: seq<bv8>)
    requires |x| == |y| && Bits(x) == Bits(y)
    ensures x == y
    decreases |x|
  {
    hide ByteBits;
    if |x| > 0 {
      assert Bits(x)[..8] == ByteBits(x[0]) && Bits(y)[..8] == ByteBits(y[0]);
      assert Bits(x)[8..] == Bits(x[1..]) && Bits(y)[8..] == Bits(y[1..]);
      ByteBitsInjective(x[0], y[0]);
      BitsInjective(x[1..], y[1..]);
    }
  }

  /** Messages that differ only inside two consecutive bytes have different values. */
  lemma {:induction false} TwoBytesDetected(p: seq<bv8>, x: seq<bv8>, y: seq<bv8>, s: seq<bv8>)
    requires |x| == |y| <= 2 && x != y
    ensures Crc(p + x + s) != Crc(p + y + s)
  {
    hide CrcBits, Bits;
    BitsConcat(p + x, s);
    BitsConcat(p + y, s);
    BitsConcat(p, x);
    BitsConcat(p, y);
    if Bits(x) == Bits(y) {
      BitsInjective(x, y);
    }
    BurstDetected(0, Bits(p), Bits(x), Bits(y), Bits(s));
  }
}
