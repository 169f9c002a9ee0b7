// The 32-bit words components/utils/ln_aes.c computes on: byte r of a word is row r of a column.
module AesWords {
  import opened AesTables
  import opened Gf256
  import opened Fips197

  function B0(w: bv32): bv8 { (w & 0xFF) as bv8 }
  function B1(w: bv32): bv8 { ((w >> 8) & 0xFF) as bv8 }
  function B2(w: bv32): bv8 { ((w >> 16) & 0xFF) as bv8 }
  function B3(w: bv32): bv8 { ((w >> 24) & 0xFF) as bv8 }

  function ToCol(w: bv32): Col { Col(B0(w), B1(w), B2(w), B3(w)) }

  function Word(c: Col): bv32 {
    (c.b0 as bv32) | ((c.b1 as bv32) << 8) | ((c.b2 as bv32) << 16) | ((c.b3 as bv32) << 24)
  }

  /** Four bytes added at their places, as the key loader does (ln_aes.c:322). */
  function JoinBytes(a: bv8, b: bv8, c: bv8, d: bv8): bv32 {
    (a as bv32) + ((b as bv32) << 8) + ((c as bv32) << 16) + ((d as bv32) << 24)
  }

  /** C's `x ^ y`, named so that proofs need not look inside it. */
  function XorWord(x: bv32, y: bv32): bv32 { x ^ y }

  function XorRcon(w: bv32, rcon: bv8): bv32 { w ^ (rcon as bv32) }

  // ROTBYTE, ROTRBYTE and SUBBYTE (ln_aes.c:17-22)
  function RotByte(x: bv32): bv32 { (x >> 8) | ((x & 0xFF) << 24) }

  function RotRByte(x: bv32): bv32 { (x << 8) | ((x >> 24) & 0xFF) }

  function SubByte(x: bv32): bv32 {
    (Sbox(B0(x)) as bv32) | ((Sbox(B1(x)) as bv32) << 8) | ((Sbox(B2(x)) as bv32) << 16) | ((Sbox(B3(x)) as bv32) << 24)
  }

  function InvSubByte(x: bv32): bv32 {
    (InvSbox(B0(x)) as bv32) | ((InvSbox(B1(x)) as bv32) << 8) |
    ((InvSbox(B2(x)) as bv32) << 16) | ((InvSbox(B3(x)) as bv32) << 24)
  }

  /** The last round's selection of one byte from each of four words (ln_aes.c:404-407). */
  function Gather(w0: bv32, w1: bv32, w2: bv32, w3: bv32): bv32 {
    (w0 & 0xFF) | (w1 & (0xFF << 8)) | (w2 & (0xFF << 16)) | (w3 & (0xFF << 24))
  }

  function XorRot(p: bv32, x: bv32): bv32 { XorWord(p, RotRByte(x)) }

  /** The nested rotations that join four table entries (ln_aes.c:392-395). */
  function Combine(p: bv32, q: bv32, r: bv32, s: bv32): bv32 { XorRot(p, XorRot(q, XorRot(r, s))) }

  function RotWord(c: Col): Col { Col(c.b1, c.b2, c.b3, c.b0) }

  function RotRWord(c: Col): Col { Col(c.b3, c.b0, c.b1, c.b2) }

  // --- each word operation, as an operation on columns ---

  lemma {:induction false} WordCol(c: Col)
    ensures ToCol(Word(c)) == c
  {}

  lemma {:induction false} JoinBytesCol(a: bv8, b: bv8, c: bv8, d: bv8)
    ensures ToCol(JoinBytes(a, b, c, d)) == Col(a, b, c, d)
  {}

  lemma {:induction false} XorWordCol(x: bv32, y: bv32)
    ensures ToCol(XorWord(x, y)) == AddCol(ToCol(x), ToCol(y))
  {}

  lemma {:induction false} XorRconCol(w: bv32, rcon: bv8)
    ensures ToCol(XorRcon(w, rcon)) == AddCol(ToCol(w), Col(rcon, 0, 0, 0))
  {}

  lemma {:induction false} RotByteCol(x: bv32)
    ensures ToCol(RotByte(x)) == RotWord(ToCol(x))
  {}

  lemma {:induction false} RotRByteCol(x: bv32)
    ensures ToCol(RotRByte(x)) == RotRWord(ToCol(x))
  {}

  lemma {:induction false} SubByteCol(x: bv32)
    ensures ToCol(SubByte(x)) == SubColumn(ToCol(x))
  {
    hide Sbox;
    WordCol(SubColumn(ToCol(x)));
  }

  lemma {:induction false} InvSubByteCol(x: bv32)
    ensures ToCol(InvSubByte(x)) == InvSubColumn(ToCol(x))
  {
    hide InvSbox;
    WordCol(InvSubColumn(ToCol(x)));
  }

  lemma {:induction false} GatherCol(w0: bv32, w1: bv32, w2: bv32, w3: bv32)
    ensures ToCol(Gather(w0, w1, w2, w3)) == Col(B0(w0), B1(w1), B2(w2), B3(w3))
  {}

  lemma {:induction false} AddColComm(x: Col, y: Col)
    ensures AddCol(x, y) == AddCol(y, x)
  {}

  lemma {:induction false} XorRotCol(p: bv32, x: bv32)
    ensures ToCol(XorRot(p, x)) == AddCol(ToCol(p), RotRWord(ToCol(x)))
  {
    hide ToCol, AddCol, RotRWord, RotRByte, XorWord;
    XorWordCol(p, RotRByte(x));
    RotRByteCol(x);
  }

  lemma {:induction false} NestedColumns(p: Col, q: Col, r: Col, s: Col)
    ensures AddCol(p, RotRWord(AddCol(q, RotRWord(AddCol(r, RotRWord(s)))))) ==
            Col(Add4(p.b0, q.b3, r.b2, s.b1), Add4(p.b1, q.b0, r.b3, s.b2),
                Add4(p.b2, q.b1, r.b0, s.b3), Add4(p.b3, q.b2, r.b1, s.b0))
  {
    hide Add, Add4;
    Nest4(p.b0, q.b3, r.b2, s.b1);
    Nest4(p.b1, q.b0, r.b3, s.b2);
    Nest4(p.b2, q.b1, r.b0, s.b3);
    Nest4(p.b3, q.b2, r.b1, s.b0);
  }

  lemma {:induction false} CombineCol(p: bv32, q: bv32, r: bv32, s: bv32)
    ensures ToCol(Combine(p, q, r, s)) ==
            var (p', q', r', s') := (ToCol(p), ToCol(q), ToCol(r), ToCol(s));
            Col(Add4(p'.b0, q'.b3, r'.b2, s'.b1), Add4(p'.b1, q'.b0, r'.b3, s'.b2),
                Add4(p'.b2, q'.b1, r'.b0, s'.b3), Add4(p'.b3, q'.b2, r'.b1, s'.b0))
  {
    hide ToCol, Add4, RotRWord, AddCol, XorRot;
    XorRotCol(p, XorRot(q, XorRot(r, s)));
    XorRotCol(q, XorRot(r, s));
    XorRotCol(r, s);
    NestedColumns(ToCol(p), ToCol(q), ToCol(r), ToCol(s));
  }

  // --- a table entry is a substituted byte times one column of the mixing matrix ---

  lemma {:induction false} EncWord(y: bv8)
    ensures EncTable(InvSbox(y)) == Word(Col(Times2(y), y, y, Times3(y)))
  {}

  lemma {:induction false} DecWord(y: bv8)
    ensures DecTable(Sbox(y)) == Word(Col(TimesE(y), Times9(y), TimesD(y), TimesB(y)))
  {}

  lemma {:induction false} EncEntry(x: bv8)
    ensures ToCol(EncTable(x)) == Col(Times2(Sbox(x)), Sbox(x), Sbox(x), Times3(Sbox(x)))
  {
    hide *;
    SboxInverse(x);
    EncWord(Sbox(x));
    WordCol(Col(Times2(Sbox(x)), Sbox(x), Sbox(x), Times3(Sbox(x))));
  }

  lemma {:induction false} DecEntry(x: bv8)
    ensures var y := InvSbox(x); ToCol(DecTable(x)) == Col(TimesE(y), Times9(y), TimesD(y), TimesB(y))
  {
    hide *;
    InvSboxInverse(x);
    DecWord(InvSbox(x));
    WordCol(Col(TimesE(InvSbox(x)), Times9(InvSbox(x)), TimesD(InvSbox(x)), TimesB(InvSbox(x))));
  }

  /** Four lookups in g_dtbl, rotated and added, are SubBytes and MixColumns on one column. */
  lemma {:induction false} EncColumnIsRound(a: bv8, b: bv8, c: bv8, d: bv8)
    ensures ToCol(Combine(EncTable(a), EncTable(b), EncTable(c), EncTable(d))) == MixColumn(SubColumn(Col(a, b, c, d)))
  {
    hide Sbox, EncTable, Combine, Times2, Times3, Add4, ToCol;
    EncEntry(a);
    EncEntry(b);
    EncEntry(c);
    EncEntry(d);
    CombineCol(EncTable(a), EncTable(b), EncTable(c), EncTable(d));
  }

  /** Four lookups in g_itbl, rotated and added, are InvSubBytes and InvMixColumns on one column. */
  lemma {:induction false} DecColumnIsRound(a: bv8, b: bv8, c: bv8, d: bv8)
    ensures ToCol(Combine(DecTable(a), DecTable(b), DecTable(c), DecTable(d))) ==
            InvMixColumn(InvSubColumn(Col(a, b, c, d)))
  {
    hide InvSbox, DecTable, Combine, Times9, TimesB, TimesD, TimesE, Add4, ToCol;
    DecEntry(a);
    DecEntry(b);
    DecEntry(c);
    DecEntry(d);
    CombineCol(DecTable(a), DecTable(b), DecTable(c), DecTable(d));
  }
}
