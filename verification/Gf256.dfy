// Arithmetic in GF(2^8) as section 4 of FIPS 197 defines it, and the logarithm-table product
// of components/utils/ln_aes.c.
module Gf256 {
  import opened AesTables

  function Add(x: bv8, y: bv8): bv8 { x ^ y }

  function Add3(x: bv8, y: bv8, z: bv8): bv8 { x ^ y ^ z }

  function Add4(x: bv8, y: bv8, z: bv8, w: bv8): bv8 { x ^ y ^ z ^ w }

  /** Multiplication by the polynomial x: shift, and reduce by 0x1B when bit 7 falls out. */
  function Xtime(x: bv8): bv8 { (x << 1) ^ ((x >> 7) * 0x1B) }

  function Pick(bit: bool, x: bv8): bv8 { if bit then x else 0 }

  function Bit0(k: bv8): bool { k & 0x01 != 0 }
  function Bit1(k: bv8): bool { k & 0x02 != 0 }
  function Bit2(k: bv8): bool { k & 0x04 != 0 }
  function Bit3(k: bv8): bool { k & 0x08 != 0 }
  function Bit4(k: bv8): bool { k & 0x10 != 0 }
  function Bit5(k: bv8): bool { k & 0x20 != 0 }
  function Bit6(k: bv8): bool { k & 0x40 != 0 }
  function Bit7(k: bv8): bool { k & 0x80 != 0 }

  function Xtime2(x: bv8): bv8 { Xtime(Xtime(x)) }
  function Xtime4(x: bv8): bv8 { Xtime2(Xtime2(x)) }

  /** The field product: the sum of x * 2^i over the bits i of k. */
  function GfMul(k: bv8, x: bv8): bv8 {
    Add(LowTerms(k, x), HighTerms(k, Xtime4(x)))
  }

  function LowTerms(k: bv8, x: bv8): bv8 {
    Add4(Pick(Bit0(k), x), Pick(Bit1(k), Xtime(x)), Pick(Bit2(k), Xtime2(x)), Pick(Bit3(k), Xtime(Xtime2(x))))
  }

  function HighTerms(k: bv8, x: bv8): bv8 {
    Add4(Pick(Bit4(k), x), Pick(Bit5(k), Xtime(x)), Pick(Bit6(k), Xtime2(x)), Pick(Bit7(k), Xtime(Xtime2(x))))
  }

  // The six multiples that MixColumns and its inverse use.
  function Times2(x: bv8): bv8 { Xtime(x) }
  function Times3(x: bv8): bv8 { Add(Xtime(x), x) }
  function Times9(x: bv8): bv8 { Add(Xtime(Xtime(Xtime(x))), x) }
  function TimesB(x: bv8): bv8 { Add3(Xtime(Xtime(Xtime(x))), Xtime(x), x) }
  function TimesD(x: bv8): bv8 { Add3(Xtime(Xtime(Xtime(x))), Xtime(Xtime(x)), x) }
  function TimesE(x: bv8): bv8 { Add3(Xtime(Xtime(Xtime(x))), Xtime(Xtime(x)), Xtime(x)) }

  lemma {:induction false} MultiplesAreProducts(x: bv8)
    ensures GfMul(0x02, x) == Times2(x) && GfMul(0x03, x) == Times3(x)
    ensures GfMul(0x09, x) == Times9(x) && GfMul(0x0B, x) == TimesB(x)
    ensures GfMul(0x0D, x) == TimesD(x) && GfMul(0x0E, x) == TimesE(x)
  {
    hide Add, Add3, Add4, Xtime;
    var (x1, x2, x3) := (Xtime(x), Xtime2(x), Xtime(Xtime2(x)));
    FewTerms(x, x1, x2, x3);
    NoHighTerms(0x02, x);
    NoHighTerms(0x03, x);
    NoHighTerms(0x09, x);
    NoHighTerms(0x0B, x);
    NoHighTerms(0x0D, x);
    NoHighTerms(0x0E, x);
  }

  lemma {:induction false} FewTerms(a: bv8, b: bv8, c: bv8, d: bv8)
    ensures Add4(0, b, 0, 0) == b && Add4(a, b, 0, 0) == Add(b, a) && Add4(a, 0, 0, d) == Add(d, a)
    ensures Add4(a, b, 0, d) == Add3(d, b, a) && Add4(a, 0, c, d) == Add3(d, c, a) && Add4(0, b, c, d) == Add3(d, c, b)
  {}

  lemma {:induction false} NoHighTerms(k: bv8, x: bv8)
    requires k < 0x10
    ensures GfMul(k, x) == LowTerms(k, x)
  {
    hide LowTerms, Xtime;
  }

  // --- what the S-box means ---

  /** The affine map of section 5.1.1 of FIPS 197. */
  function Affine(y: bv8): bv8 {
    y ^ ((y << 1) | (y >> 7)) ^ ((y << 2) | (y >> 6)) ^ ((y << 3) | (y >> 5)) ^ ((y << 4) | (y >> 4)) ^ 0x63
  }

  function InvAffine(z: bv8): bv8 {
    ((z << 1) | (z >> 7)) ^ ((z << 3) | (z >> 5)) ^ ((z << 6) | (z >> 2)) ^ 0x05
  }

  lemma {:induction false} AffineInverse(z: bv8)
    ensures Affine(InvAffine(z)) == z
  {}

  lemma {:induction false} SboxReciprocal(x: bv8)
    ensures x != 0 ==> GfMul(x, InvAffine(Sbox(x))) == 1
    ensures x == 0 ==> InvAffine(Sbox(x)) == 0
  {}

  /** Every table entry is the affine image of the field reciprocal of its index (0 for index 0). */
  lemma {:induction false} SboxIsAffineReciprocal(x: bv8)
    ensures exists y: bv8 :: Sbox(x) == Affine(y) && (if x == 0 then y == 0 else GfMul(x, y) == 1)
  {
    hide Sbox, GfMul, Affine, InvAffine;
    AffineInverse(Sbox(x));
    SboxReciprocal(x);
    assert Sbox(x) == Affine(InvAffine(Sbox(x)));
  }

  // --- addition is associative and commutative; sums regroup ---

  lemma {:induction false} Assoc(a: bv8, b: bv8, c: bv8)
    ensures Add(Add(a, b), c) == Add(a, Add(b, c))
  {}

  lemma {:induction false} Comm(a: bv8, b: bv8)
    ensures Add(a, b) == Add(b, a)
  {}

  lemma {:induction false} AddTwice(x: bv8, y: bv8)
    ensures Add(Add(x, y), y) == x
  {}

  lemma {:induction false} AddZeros(a: bv8)
    ensures Add4(a, 0, 0, 0) == a
  {}

  lemma {:induction false} Pair3(a: bv8, b: bv8, c: bv8)
    ensures Add3(a, b, c) == Add(Add(a, b), c)
  {}

  lemma {:induction false} Pair4(a: bv8, b: bv8, c: bv8, d: bv8)
    ensures Add4(a, b, c, d) == Add(Add(a, b), Add(c, d))
  {}

  lemma {:induction false} Nest4(a: bv8, b: bv8, c: bv8, d: bv8)
    ensures Add(a, Add(b, Add(c, d))) == Add4(a, b, c, d)
  {
    hide *;
    Pair4(a, b, c, d);
    Assoc(a, b, Add(c, d));
  }

  lemma {:induction false} Rotate4(a: bv8, b: bv8, c: bv8, d: bv8)
    ensures Add4(a, b, c, d) == Add4(b, c, d, a)
  {
    hide *;
    Pair4(a, b, c, d);
    Pair4(b, c, d, a);
    Assoc(a, b, Add(c, d));
    Assoc(b, c, d);
    Assoc(Add(b, c), d, a);
    Comm(a, Add(b, Add(c, d)));
  }

  lemma {:induction false} Swap2(a: bv8, b: bv8, c: bv8, d: bv8)
    ensures Add(Add(a, b), Add(c, d)) == Add(Add(a, c), Add(b, d))
  {
    hide *;
    Assoc(a, b, Add(c, d));
    Assoc(b, c, d);
    Comm(b, c);
    Assoc(c, b, d);
    Assoc(a, c, Add(b, d));
  }

  lemma {:induction false} Swap3(a: bv8, b: bv8, c: bv8, d: bv8, e: bv8, f: bv8)
    ensures Add3(Add(a, b), Add(c, d), Add(e, f)) == Add(Add3(a, c, e), Add3(b, d, f))
  {
    hide *;
    Pair3(Add(a, b), Add(c, d), Add(e, f));
    Pair3(a, c, e);
    Pair3(b, d, f);
    Swap2(a, b, c, d);
    Swap2(Add(a, c), Add(b, d), e, f);
  }

  lemma {:induction false} Swap4(a: bv8, b: bv8, c: bv8, d: bv8, e: bv8, f: bv8, g: bv8, h: bv8)
    ensures Add(Add4(a, b, c, d), Add4(e, f, g, h)) == Add4(Add(a, e), Add(b, f), Add(c, g), Add(d, h))
  {
    hide *;
    Pair4(a, b, c, d);
    Pair4(e, f, g, h);
    Pair4(Add(a, e), Add(b, f), Add(c, g), Add(d, h));
    Swap2(Add(a, b), Add(c, d), Add(e, f), Add(g, h));
    Swap2(a, b, e, f);
    Swap2(c, d, g, h);
  }

  /** A four-by-four sum may be taken by rows or by columns. */
  lemma {:induction false} Transpose(a: bv8, b: bv8, c: bv8, d: bv8, e: bv8, f: bv8, g: bv8, h: bv8,
      i: bv8, j: bv8, k: bv8, l: bv8, m: bv8, n: bv8, o: bv8, p: bv8)
    ensures Add4(Add4(a, b, c, d), Add4(e, f, g, h), Add4(i, j, k, l), Add4(m, n, o, p)) ==
            Add4(Add4(a, e, i, m), Add4(b, f, j, n), Add4(c, g, k, o), Add4(d, h, l, p))
  {
    hide *;
    Pair4(Add4(a, b, c, d), Add4(e, f, g, h), Add4(i, j, k, l), Add4(m, n, o, p));
    Swap4(a, b, c, d, e, f, g, h);
    Swap4(i, j, k, l, m, n, o, p);
    Swap4(Add(a, e), Add(b, f), Add(c, g), Add(d, h), Add(i, m), Add(j, n), Add(k, o), Add(l, p));
    Pair4(a, e, i, m);
    Pair4(b, f, j, n);
    Pair4(c, g, k, o);
    Pair4(d, h, l, p);
  }

  // --- multiplication by x is linear ---

  lemma {:induction false} XtimeLinear(x: bv8, y: bv8)
    ensures Xtime(Add(x, y)) == Add(Xtime(x), Xtime(y))
  {}

  // --- the product is linear in its first factor and commutes with x ---

  lemma {:induction false} BitsAdd(j: bv8, k: bv8)
    ensures Bit0(Add(j, k)) == (Bit0(j) != Bit0(k)) && Bit1(Add(j, k)) == (Bit1(j) != Bit1(k))
    ensures Bit2(Add(j, k)) == (Bit2(j) != Bit2(k)) && Bit3(Add(j, k)) == (Bit3(j) != Bit3(k))
    ensures Bit4(Add(j, k)) == (Bit4(j) != Bit4(k)) && Bit5(Add(j, k)) == (Bit5(j) != Bit5(k))
    ensures Bit6(Add(j, k)) == (Bit6(j) != Bit6(k)) && Bit7(Add(j, k)) == (Bit7(j) != Bit7(k))
  {}

  lemma {:induction false} PickAdd(b: bool, c: bool, x: bv8)
    ensures Pick(b != c, x) == Add(Pick(b, x), Pick(c, x))
  {}

  /** A sum of four picked terms is linear in what is picked. */
  lemma {:induction false} PickFour(b0: bool, b1: bool, b2: bool, b3: bool, c0: bool, c1: bool, c2: bool, c3: bool,
      x0: bv8, x1: bv8, x2: bv8, x3: bv8)
    ensures Add4(Pick(b0 != c0, x0), Pick(b1 != c1, x1), Pick(b2 != c2, x2), Pick(b3 != c3, x3)) ==
            Add(Add4(Pick(b0, x0), Pick(b1, x1), Pick(b2, x2), Pick(b3, x3)),
                Add4(Pick(c0, x0), Pick(c1, x1), Pick(c2, x2), Pick(c3, x3)))
  {
    hide *;
    PickAdd(b0, c0, x0);
    PickAdd(b1, c1, x1);
    PickAdd(b2, c2, x2);
    PickAdd(b3, c3, x3);
    Swap4(Pick(b0, x0), Pick(b1, x1), Pick(b2, x2), Pick(b3, x3), Pick(c0, x0), Pick(c1, x1), Pick(c2, x2), Pick(c3, x3));
  }

  lemma {:induction false} ProductAdd(j: bv8, k: bv8, x: bv8)
    ensures GfMul(Add(j, k), x) == Add(GfMul(j, x), GfMul(k, x))
  {
    hide Add, Add4, Pick, Xtime, Xtime2, Xtime4, Bit0, Bit1, Bit2, Bit3, Bit4, Bit5, Bit6, Bit7;
    BitsAdd(j, k);
    var y := Xtime4(x);
    PickFour(Bit0(j), Bit1(j), Bit2(j), Bit3(j), Bit0(k), Bit1(k), Bit2(k), Bit3(k),
             x, Xtime(x), Xtime2(x), Xtime(Xtime2(x)));
    PickFour(Bit4(j), Bit5(j), Bit6(j), Bit7(j), Bit4(k), Bit5(k), Bit6(k), Bit7(k),
             y, Xtime(y), Xtime2(y), Xtime(Xtime2(y)));
    Swap2(LowTerms(j, x), LowTerms(k, x), HighTerms(j, y), HighTerms(k, y));
  }

  function Doubled(k: bv8): bv8 { k << 1 }

  lemma {:induction false} XtimeParts(k: bv8)
    ensures Xtime(k) == Add(Doubled(k), Pick(Bit7(k), 0x1B))
    ensures !Bit0(Doubled(k)) && Bit1(Doubled(k)) == Bit0(k) && Bit2(Doubled(k)) == Bit1(k) && Bit3(Doubled(k)) == Bit2(k)
    ensures Bit4(Doubled(k)) == Bit3(k) && Bit5(Doubled(k)) == Bit4(k)
    ensures Bit6(Doubled(k)) == Bit5(k) && Bit7(Doubled(k)) == Bit6(k)
  {}

  /** x^8 is x^4 + x^3 + x + 1. */
  lemma {:induction false} Reduction(x: bv8)
    ensures Xtime4(Xtime4(x)) == GfMul(0x1B, x)
  {}

  lemma {:induction false} XtimePick(b: bool, x: bv8)
    ensures Xtime(Pick(b, x)) == Pick(b, Xtime(x)) && Pick(false, x) == 0
  {}

  lemma {:induction false} XtimeFour(a: bv8, b: bv8, c: bv8, d: bv8)
    ensures Xtime(Add4(a, b, c, d)) == Add4(Xtime(a), Xtime(b), Xtime(c), Xtime(d))
  {
    hide *;
    Pair4(a, b, c, d);
    Pair4(Xtime(a), Xtime(b), Xtime(c), Xtime(d));
    XtimeLinear(Add(a, b), Add(c, d));
    XtimeLinear(a, b);
    XtimeLinear(c, d);
  }

  /** Eight terms shifted by one place: the last one moves out to the right. */
  lemma {:induction false} ShiftTerms(a: bv8, b: bv8, c: bv8, d: bv8, e: bv8, f: bv8, g: bv8, h: bv8)
    ensures Add(Add4(a, b, c, d), Add4(e, f, g, h)) == Add(Add(Add4(0, a, b, c), Add4(d, e, f, g)), h)
  {
    hide Add4;
    Pair4(a, b, c, d);
    Pair4(e, f, g, h);
    Pair4(0, a, b, c);
    Pair4(d, e, f, g);
    ShiftSums(a, b, c, d, e, f, g, h);
  }

  lemma {:induction false} ShiftSums(a: bv8, b: bv8, c: bv8, d: bv8, e: bv8, f: bv8, g: bv8, h: bv8)
    ensures Add(Add(Add(a, b), Add(c, d)), Add(Add(e, f), Add(g, h))) ==
            Add(Add(Add(Add(0, a), Add(b, c)), Add(Add(d, e), Add(f, g))), h)
  {
    hide *;
    ZeroAdd(a);
    Assoc(a, b, Add(c, d));
    Assoc(b, c, d);
    var p := Add(a, Add(b, c));
    Assoc(a, Add(b, c), d);
    Assoc(e, f, Add(g, h));
    Assoc(f, g, h);
    Assoc(p, d, Add(e, Add(Add(f, g), h)));
    Assoc(d, e, Add(Add(f, g), h));
    Assoc(Add(d, e), Add(f, g), h);
    Assoc(p, Add(Add(d, e), Add(f, g)), h);
  }

  lemma {:induction false} ZeroAdd(a: bv8)
    ensures Add(0, a) == a && Add(a, 0) == a
  {}

  lemma {:induction false} ProductPick(b: bool, k: bv8, x: bv8)
    ensures GfMul(Pick(b, k), x) == Pick(b, GfMul(k, x))
  {
    hide Xtime, Xtime2, Xtime4;
    if !b {
      assert LowTerms(0, x) == 0 && HighTerms(0, Xtime4(x)) == 0;
    }
  }

  lemma {:induction false} ProductXtime(k: bv8, x: bv8)
    ensures GfMul(Xtime(k), x) == Xtime(GfMul(k, x))
  {
    hide *;
    var (x1, x2, x3, x4) := (Xtime(x), Xtime2(x), Xtime(Xtime2(x)), Xtime4(x));
    var (x5, x6, x7, x8) := (Xtime(x4), Xtime2(x4), Xtime(Xtime2(x4)), Xtime4(x4));
    XtimeParts(k);
    ProductAdd(Doubled(k), Pick(Bit7(k), 0x1B), x);
    ProductPick(Bit7(k), 0x1B, x);
    Reduction(x);
    XtimeTerms(k, x);
    DoubledTerms(k, x);
    ShiftTerms(Pick(Bit0(k), x1), Pick(Bit1(k), x2), Pick(Bit2(k), x3), Pick(Bit3(k), x4),
               Pick(Bit4(k), x5), Pick(Bit5(k), x6), Pick(Bit6(k), x7), Pick(Bit7(k), x8));
  }

  lemma {:induction false} XtimePowers(x: bv8)
    ensures Xtime(Xtime(x)) == Xtime2(x) && Xtime(Xtime(Xtime2(x))) == Xtime4(x)
  {
    hide Xtime;
  }

  /** Multiplied by x every term moves one place up. */
  lemma {:induction false} XtimeTerms(k: bv8, x: bv8)
    ensures var (x1, x2, x3, x4) := (Xtime(x), Xtime2(x), Xtime(Xtime2(x)), Xtime4(x));
            var (x5, x6, x7, x8) := (Xtime(x4), Xtime2(x4), Xtime(Xtime2(x4)), Xtime4(x4));
            Xtime(GfMul(k, x)) ==
            Add(Add4(Pick(Bit0(k), x1), Pick(Bit1(k), x2), Pick(Bit2(k), x3), Pick(Bit3(k), x4)),
                Add4(Pick(Bit4(k), x5), Pick(Bit5(k), x6), Pick(Bit6(k), x7), Pick(Bit7(k), x8)))
  {
    hide Add, Add4, Pick, Xtime, Xtime2, Xtime4, Bit0, Bit1, Bit2, Bit3, Bit4, Bit5, Bit6, Bit7;
    var x4 := Xtime4(x);
    XtimePowers(x);
    XtimePowers(x4);
    XtimeLinear(LowTerms(k, x), HighTerms(k, x4));
    XtimeQuad(Bit0(k), Bit1(k), Bit2(k), Bit3(k), x, Xtime(x), Xtime2(x), Xtime(Xtime2(x)));
    XtimeQuad(Bit4(k), Bit5(k), Bit6(k), Bit7(k), x4, Xtime(x4), Xtime2(x4), Xtime(Xtime2(x4)));
  }

  lemma {:induction false} XtimeQuad(b0: bool, b1: bool, b2: bool, b3: bool, x0: bv8, x1: bv8, x2: bv8, x3: bv8)
    ensures Xtime(Add4(Pick(b0, x0), Pick(b1, x1), Pick(b2, x2), Pick(b3, x3))) ==
            Add4(Pick(b0, Xtime(x0)), Pick(b1, Xtime(x1)), Pick(b2, Xtime(x2)), Pick(b3, Xtime(x3)))
  {
    hide *;
    XtimeFour(Pick(b0, x0), Pick(b1, x1), Pick(b2, x2), Pick(b3, x3));
    XtimePick(b0, x0);
    XtimePick(b1, x1);
    XtimePick(b2, x2);
    XtimePick(b3, x3);
  }

  /** Doubled, a factor picks the terms one place up, and loses its last bit. */
  lemma {:induction false} DoubledTerms(k: bv8, x: bv8)
    ensures var (x1, x2, x3, x4) := (Xtime(x), Xtime2(x), Xtime(Xtime2(x)), Xtime4(x));
            var (x5, x6, x7) := (Xtime(x4), Xtime2(x4), Xtime(Xtime2(x4)));
            GfMul(Doubled(k), x) ==
            Add(Add4(0, Pick(Bit0(k), x1), Pick(Bit1(k), x2), Pick(Bit2(k), x3)),
                Add4(Pick(Bit3(k), x4), Pick(Bit4(k), x5), Pick(Bit5(k), x6), Pick(Bit6(k), x7)))
  {
    hide Add, Add4, Pick, Xtime, Xtime2, Xtime4, Bit0, Bit1, Bit2, Bit3, Bit4, Bit5, Bit6, Bit7, Doubled;
    XtimeParts(k);
    XtimePick(false, x);
  }

  // --- the product by logarithm tables ---

  /** The next exponent of the generator 3, whose order is 255. */
  function NextExponent(m: bv8): bv8 { if m == 254 then 0 else m + 1 }

  /** The sum of two logarithms, at most 508, so nine bits hold it. */
  function AddLogs(m: bv8, n: bv8): bv8 { (((m as bv9) + (n as bv9)) % 255) as bv8 }

  /** The program's product. */
  function Mul(a: bv8, b: bv8): bv8 {
    if a != 0 && b != 0 then AlogTable(AddLogs(LogTable(a), LogTable(b))) else 0
  }

  lemma {:induction false} AlogNext(m: bv8)
    requires m <= 254
    ensures AlogTable(NextExponent(m)) == Times3(AlogTable(m))
  {
    var a := AlogTable(m);
    assert AlogTable(NextExponent(m)) == Xtime(a) ^ a;
  }

  lemma {:induction false} AlogStart()
    ensures AlogTable(0) == 1
  {}

  lemma {:induction false} AlogLog(a: bv8)
    requires a != 0
    ensures AlogTable(LogTable(a)) == a && LogTable(a) <= 254
  {}

  function AddModulo255(m: bv8, n: bv8): bv8 { if m < 255 - n then m + n else m - (255 - n) }

  lemma {:induction false} AddLogsModulo(m: bv8, n: bv8)
    requires m <= 254 && n <= 254
    ensures AddLogs(m, n) == AddModulo255(m, n) <= 254
  {}

  lemma {:induction false} AddLogsNext(m: bv8, n: bv8)
    requires m < 254 && n <= 254
    ensures AddLogs(0, n) == n && AddLogs(m + 1, n) == NextExponent(AddLogs(m, n)) && AddLogs(m, n) <= 254
  {
    hide AddLogs, AddModulo255, NextExponent;
    AddLogsModulo(0, n);
    AddLogsModulo(m, n);
    AddLogsModulo(m + 1, n);
    AddModuloNext(m, n);
  }

  lemma {:induction false} AddModuloNext(m: bv8, n: bv8)
    requires m < 254 && n <= 254
    ensures AddModulo255(0, n) == n && AddModulo255(m + 1, n) == NextExponent(AddModulo255(m, n)) && m + 1 <= 254
  {}

  lemma {:induction false} ProductOne(x: bv8)
    ensures GfMul(1, x) == x && GfMul(0, x) == 0 && GfMul(x, 0) == 0
  {}

  lemma {:induction false} ProductTimes3(k: bv8, x: bv8)
    ensures GfMul(Times3(k), x) == Times3(GfMul(k, x))
  {
    hide GfMul, Add, Xtime;
    ProductAdd(Xtime(k), k, x);
    ProductXtime(k, x);
  }

  /** Multiplying by the m-th power of the generator adds m to the logarithm. */
  lemma {:induction false} PowerProduct(m: bv8, b: bv8)
    requires m <= 254 && b != 0
    ensures AlogTable(AddLogs(m, LogTable(b))) == GfMul(AlogTable(m), b)
    decreases m
  {
    hide AlogTable, LogTable, GfMul, AddLogs, NextExponent, Times3;
    var n := LogTable(b);
    AlogLog(b);
    if m == 0 {
      AddLogsNext(0, n);
      AlogStart();
      ProductOne(b);
    } else {
      Predecessor(m);
      PowerProduct(m - 1, b);
      AddLogsNext(m - 1, n);
      AlogNext(AddLogs(m - 1, n));
      AlogNext(m - 1);
      ProductTimes3(AlogTable(m - 1), b);
    }
  }

  lemma {:induction false} Predecessor(m: bv8)
    requires 0 < m <= 254
    ensures m - 1 < 254 && m - 1 + 1 == m && NextExponent(m - 1) == m
  {}

  /** The table product is the field product, for every two bytes. */
  lemma {:induction false} LogProductIsFieldProduct(a: bv8, b: bv8)
    ensures Mul(a, b) == GfMul(a, b)
  {
    hide AlogTable, LogTable, GfMul, AddLogs;
    if a == 0 {
      ProductOne(b);
    } else if b == 0 {
      ProductOne(a);
    } else {
      AlogLog(a);
      PowerProduct(LogTable(a), b);
    }
  }

  /** The four products of the inverse mixing. */
  lemma {:induction false} LogMultiples(x: bv8)
    ensures Mul(0x09, x) == Times9(x) && Mul(0x0B, x) == TimesB(x)
    ensures Mul(0x0D, x) == TimesD(x) && Mul(0x0E, x) == TimesE(x)
  {
    hide *;
    LogProductIsFieldProduct(0x09, x);
    LogProductIsFieldProduct(0x0B, x);
    LogProductIsFieldProduct(0x0D, x);
    LogProductIsFieldProduct(0x0E, x);
    MultiplesAreProducts(x);
  }

  // --- the fixed multiples are linear ---

  lemma {:induction false} TimesLinear(x: bv8, y: bv8)
    ensures Times2(Add(x, y)) == Add(Times2(x), Times2(y))
    ensures Times3(Add(x, y)) == Add(Times3(x), Times3(y))
    ensures Times9(Add(x, y)) == Add(Times9(x), Times9(y))
    ensures TimesB(Add(x, y)) == Add(TimesB(x), TimesB(y))
    ensures TimesD(Add(x, y)) == Add(TimesD(x), TimesD(y))
    ensures TimesE(Add(x, y)) == Add(TimesE(x), TimesE(y))
  {
    hide Xtime, Add, Add3;
    var x1, y1 := Xtime(x), Xtime(y);
    var x2, y2 := Xtime(x1), Xtime(y1);
    var x3, y3 := Xtime(x2), Xtime(y2);
    XtimeLinear(x, y);
    XtimeLinear(x1, y1);
    XtimeLinear(x2, y2);
    Swap2(x1, y1, x, y);
    Swap2(x3, y3, x, y);
    Swap3(x3, y3, x1, y1, x, y);
    Swap3(x3, y3, x2, y2, x, y);
    Swap3(x3, y3, x2, y2, x1, y1);
  }

  lemma {:induction false} TimesLinear4(p: bv8, q: bv8, r: bv8, s: bv8)
    ensures Times2(Add4(p, q, r, s)) == Add4(Times2(p), Times2(q), Times2(r), Times2(s))
    ensures Times3(Add4(p, q, r, s)) == Add4(Times3(p), Times3(q), Times3(r), Times3(s))
    ensures Times9(Add4(p, q, r, s)) == Add4(Times9(p), Times9(q), Times9(r), Times9(s))
    ensures TimesB(Add4(p, q, r, s)) == Add4(TimesB(p), TimesB(q), TimesB(r), TimesB(s))
    ensures TimesD(Add4(p, q, r, s)) == Add4(TimesD(p), TimesD(q), TimesD(r), TimesD(s))
    ensures TimesE(Add4(p, q, r, s)) == Add4(TimesE(p), TimesE(q), TimesE(r), TimesE(s))
  {
    hide *;
    TimesLinear(p, q);
    TimesLinear(r, s);
    TimesLinear(Add(p, q), Add(r, s));
    Pair4(p, q, r, s);
    Pair4(Times2(p), Times2(q), Times2(r), Times2(s));
    Pair4(Times3(p), Times3(q), Times3(r), Times3(s));
    Pair4(Times9(p), Times9(q), Times9(r), Times9(s));
    Pair4(TimesB(p), TimesB(q), TimesB(r), TimesB(s));
    Pair4(TimesD(p), TimesD(q), TimesD(r), TimesD(s));
    Pair4(TimesE(p), TimesE(q), TimesE(r), TimesE(s));
  }

  // --- the two coefficient matrices are inverse: one row of each product, entry by entry ---

  lemma {:induction false} InvMixEntries(a: bv8)
    ensures Add4(TimesE(Times2(a)), TimesB(a), TimesD(a), Times9(Times3(a))) == a
    ensures Add4(TimesE(Times3(a)), TimesB(Times2(a)), TimesD(a), Times9(a)) == 0
    ensures Add4(TimesE(a), TimesB(Times3(a)), TimesD(Times2(a)), Times9(a)) == 0
    ensures Add4(TimesE(a), TimesB(a), TimesD(Times3(a)), Times9(Times2(a))) == 0
  {}

  lemma {:induction false} MixInvEntries(a: bv8)
    ensures Add4(Times2(TimesE(a)), Times3(Times9(a)), TimesD(a), TimesB(a)) == a
    ensures Add4(Times2(TimesB(a)), Times3(TimesE(a)), Times9(a), TimesD(a)) == 0
    ensures Add4(Times2(TimesD(a)), Times3(TimesB(a)), TimesE(a), Times9(a)) == 0
    ensures Add4(Times2(Times9(a)), Times3(TimesD(a)), TimesB(a), TimesE(a)) == 0
  {}

  lemma {:induction false} InvMixRow(a: bv8, b: bv8, c: bv8, d: bv8)
    ensures Add4(TimesE(Add4(Times2(a), Times3(b), c, d)), TimesB(Add4(a, Times2(b), Times3(c), d)),
                 TimesD(Add4(a, b, Times2(c), Times3(d))), Times9(Add4(Times3(a), b, c, Times2(d)))) == a
  {
    hide *;
    TimesLinear4(Times2(a), Times3(b), c, d);
    TimesLinear4(a, Times2(b), Times3(c), d);
    TimesLinear4(a, b, Times2(c), Times3(d));
    TimesLinear4(Times3(a), b, c, Times2(d));
    InvMixEntries(a);
    InvMixEntries(b);
    InvMixEntries(c);
    InvMixEntries(d);
    Transpose(TimesE(Times2(a)), TimesE(Times3(b)), TimesE(c), TimesE(d),
              TimesB(a), TimesB(Times2(b)), TimesB(Times3(c)), TimesB(d),
              TimesD(a), TimesD(b), TimesD(Times2(c)), TimesD(Times3(d)),
              Times9(Times3(a)), Times9(b), Times9(c), Times9(Times2(d)));
    AddZeros(a);
  }

  lemma {:induction false} MixInvRow(a: bv8, b: bv8, c: bv8, d: bv8)
    ensures Add4(Times2(Add4(TimesE(a), TimesB(b), TimesD(c), Times9(d))),
                 Times3(Add4(Times9(a), TimesE(b), TimesB(c), TimesD(d))),
                 Add4(TimesD(a), Times9(b), TimesE(c), TimesB(d)),
                 Add4(TimesB(a), TimesD(b), Times9(c), TimesE(d))) == a
  {
    hide *;
    TimesLinear4(TimesE(a), TimesB(b), TimesD(c), Times9(d));
    TimesLinear4(Times9(a), TimesE(b), TimesB(c), TimesD(d));
    MixInvEntries(a);
    MixInvEntries(b);
    MixInvEntries(c);
    MixInvEntries(d);
    Transpose(Times2(TimesE(a)), Times2(TimesB(b)), Times2(TimesD(c)), Times2(Times9(d)),
              Times3(Times9(a)), Times3(TimesE(b)), Times3(TimesB(c)), Times3(TimesD(d)),
              TimesD(a), Times9(b), TimesE(c), TimesB(d),
              TimesB(a), TimesD(b), Times9(c), TimesE(d));
    AddZeros(a);
  }
}
