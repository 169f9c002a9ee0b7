// The block cipher as section 5 of FIPS 197 defines it, and the proof that the equivalent inverse
// cipher of section 5.3.5 undoes it in both orders.
module Fips197 {
  import opened AesTables
  import opened Gf256

  datatype Col = Col(b0: bv8, b1: bv8, b2: bv8, b3: bv8)
  datatype State = State(c0: Col, c1: Col, c2: Col, c3: Col)

  function AddCol(x: Col, y: Col): Col {
    Col(Add(x.b0, y.b0), Add(x.b1, y.b1), Add(x.b2, y.b2), Add(x.b3, y.b3))
  }

  function SubColumn(c: Col): Col { Col(Sbox(c.b0), Sbox(c.b1), Sbox(c.b2), Sbox(c.b3)) }

  function InvSubColumn(c: Col): Col { Col(InvSbox(c.b0), InvSbox(c.b1), InvSbox(c.b2), InvSbox(c.b3)) }

  function MixColumn(c: Col): Col {
    Col(Add4(Times2(c.b0), Times3(c.b1), c.b2, c.b3),
        Add4(c.b0, Times2(c.b1), Times3(c.b2), c.b3),
        Add4(c.b0, c.b1, Times2(c.b2), Times3(c.b3)),
        Add4(Times3(c.b0), c.b1, c.b2, Times2(c.b3)))
  }

  function InvMixColumn(c: Col): Col {
    Col(Add4(TimesE(c.b0), TimesB(c.b1), TimesD(c.b2), Times9(c.b3)),
        Add4(Times9(c.b0), TimesE(c.b1), TimesB(c.b2), TimesD(c.b3)),
        Add4(TimesD(c.b0), Times9(c.b1), TimesE(c.b2), TimesB(c.b3)),
        Add4(TimesB(c.b0), TimesD(c.b1), Times9(c.b2), TimesE(c.b3)))
  }

  function SubBytes(s: State): State {
    State(SubColumn(s.c0), SubColumn(s.c1), SubColumn(s.c2), SubColumn(s.c3))
  }

  function InvSubBytes(s: State): State {
    State(InvSubColumn(s.c0), InvSubColumn(s.c1), InvSubColumn(s.c2), InvSubColumn(s.c3))
  }

  function ShiftRows(s: State): State {
    State(Col(s.c0.b0, s.c1.b1, s.c2.b2, s.c3.b3), Col(s.c1.b0, s.c2.b1, s.c3.b2, s.c0.b3),
          Col(s.c2.b0, s.c3.b1, s.c0.b2, s.c1.b3), Col(s.c3.b0, s.c0.b1, s.c1.b2, s.c2.b3))
  }

  function InvShiftRows(s: State): State {
    State(Col(s.c0.b0, s.c3.b1, s.c2.b2, s.c1.b3), Col(s.c1.b0, s.c0.b1, s.c3.b2, s.c2.b3),
          Col(s.c2.b0, s.c1.b1, s.c0.b2, s.c3.b3), Col(s.c3.b0, s.c2.b1, s.c1.b2, s.c0.b3))
  }

  function MixColumns(s: State): State {
    State(MixColumn(s.c0), MixColumn(s.c1), MixColumn(s.c2), MixColumn(s.c3))
  }

  function InvMixColumns(s: State): State {
    State(InvMixColumn(s.c0), InvMixColumn(s.c1), InvMixColumn(s.c2), InvMixColumn(s.c3))
  }

  function AddRoundKey(s: State, k: State): State {
    State(AddCol(s.c0, k.c0), AddCol(s.c1, k.c1), AddCol(s.c2, k.c2), AddCol(s.c3, k.c3))
  }

  function RoundKey(w: seq<Col>, r: nat): State
    requires 4 * r + 4 <= |w|
  {
    State(w[4 * r], w[4 * r + 1], w[4 * r + 2], w[4 * r + 3])
  }

  /** The state after round r of section 5.1, where round 0 is the initial key addition. */
  function Rounds(s: State, w: seq<Col>, r: nat): State
    requires 4 * r + 4 <= |w|
  {
    if r == 0 then AddRoundKey(s, RoundKey(w, 0))
    else AddRoundKey(MixColumns(ShiftRows(SubBytes(Rounds(s, w, r - 1)))), RoundKey(w, r))
  }

  function Cipher(s: State, w: seq<Col>, nr: nat): State
    requires 0 < nr && 4 * nr + 4 <= |w|
  {
    AddRoundKey(ShiftRows(SubBytes(Rounds(s, w, nr - 1))), RoundKey(w, nr))
  }

  /** The state of section 5.3.5 after the key addition of round r, counting down from nr. */
  function InvRounds(s: State, dw: seq<Col>, nr: nat, r: nat): State
    requires r <= nr && 4 * nr + 4 <= |dw|
    decreases nr - r
  {
    if r == nr then AddRoundKey(s, RoundKey(dw, nr))
    else AddRoundKey(InvMixColumns(InvSubBytes(InvShiftRows(InvRounds(s, dw, nr, r + 1)))), RoundKey(dw, r))
  }

  function EqInvCipher(s: State, dw: seq<Col>, nr: nat): State
    requires 0 < nr && 4 * nr + 4 <= |dw|
  {
    AddRoundKey(InvSubBytes(InvShiftRows(InvRounds(s, dw, nr, 1))), RoundKey(dw, 0))
  }

  /** The schedule of the inverse cipher: InvMixColumns on every round key but the first and the last. */
  predicate InverseSchedule(w: seq<Col>, dw: seq<Col>, nr: nat) {
    && 0 < nr && 4 * nr + 4 <= |w| && 4 * nr + 4 <= |dw|
    && RoundKey(dw, 0) == RoundKey(w, 0) && RoundKey(dw, nr) == RoundKey(w, nr)
    && forall r | 0 < r < nr :: RoundKey(dw, r) == InvMixColumns(RoundKey(w, r))
  }

  // --- each step has an inverse ---

  lemma {:induction false} SboxInverse(x: bv8)
    ensures InvSbox(Sbox(x)) == x
  {}

  lemma {:induction false} InvSboxInverse(x: bv8)
    ensures Sbox(InvSbox(x)) == x
  {}

  lemma {:induction false} SubInverse(s: State)
    ensures InvSubBytes(SubBytes(s)) == s && SubBytes(InvSubBytes(s)) == s
  {
    hide Sbox, InvSbox;
    forall x: bv8
      ensures InvSbox(Sbox(x)) == x
    {
      SboxInverse(x);
    }
    forall x: bv8
      ensures Sbox(InvSbox(x)) == x
    {
      InvSboxInverse(x);
    }
  }

  lemma {:induction false} ShiftInverse(s: State)
    ensures InvShiftRows(ShiftRows(s)) == s && ShiftRows(InvShiftRows(s)) == s
  {}

  lemma {:induction false} UndoSub(s: State)
    ensures InvSubBytes(InvShiftRows(ShiftRows(SubBytes(s)))) == s
    ensures ShiftRows(SubBytes(InvSubBytes(InvShiftRows(s)))) == s
  {
    hide *;
    ShiftInverse(SubBytes(s));
    ShiftInverse(s);
    SubInverse(s);
    SubInverse(InvShiftRows(s));
  }

  lemma {:induction false} KeyCancel(s: State, k: State)
    ensures AddRoundKey(AddRoundKey(s, k), k) == s
  {
    hide Add;
    forall x: bv8, y: bv8
      ensures Add(Add(x, y), y) == x
    {
      AddTwice(x, y);
    }
  }

  /** The two mixing matrices are inverse to each other, for every column. */
  lemma {:induction false} MixInverse(c: Col)
    ensures InvMixColumn(MixColumn(c)) == c
    ensures MixColumn(InvMixColumn(c)) == c
  {
    hide Add4, Times2, Times3, Times9, TimesB, TimesD, TimesE;
    var Col(p, q, r, s) := c;
    forall a: bv8, b: bv8, c: bv8, d: bv8
      ensures Add4(a, b, c, d) == Add4(b, c, d, a)
    {
      Rotate4(a, b, c, d);
    }
    InvMixRow(p, q, r, s);
    InvMixRow(q, r, s, p);
    InvMixRow(r, s, p, q);
    InvMixRow(s, p, q, r);
    MixInvRow(p, q, r, s);
    MixInvRow(q, r, s, p);
    MixInvRow(r, s, p, q);
    MixInvRow(s, p, q, r);
  }

  lemma {:induction false} InvMixColumnLinear(x: Col, y: Col)
    ensures InvMixColumn(AddCol(x, y)) == AddCol(InvMixColumn(x), InvMixColumn(y))
  {
    hide Add, Add4, Times9, TimesB, TimesD, TimesE;
    TimesLinear(x.b0, y.b0);
    TimesLinear(x.b1, y.b1);
    TimesLinear(x.b2, y.b2);
    TimesLinear(x.b3, y.b3);
    Swap4(TimesE(x.b0), TimesB(x.b1), TimesD(x.b2), Times9(x.b3), TimesE(y.b0), TimesB(y.b1), TimesD(y.b2), Times9(y.b3));
    Swap4(Times9(x.b0), TimesE(x.b1), TimesB(x.b2), TimesD(x.b3), Times9(y.b0), TimesE(y.b1), TimesB(y.b2), TimesD(y.b3));
    Swap4(TimesD(x.b0), Times9(x.b1), TimesE(x.b2), TimesB(x.b3), TimesD(y.b0), Times9(y.b1), TimesE(y.b2), TimesB(y.b3));
    Swap4(TimesB(x.b0), TimesD(x.b1), Times9(x.b2), TimesE(x.b3), TimesB(y.b0), TimesD(y.b1), Times9(y.b2), TimesE(y.b3));
  }

  /** InvMixColumns passes through a key addition by transforming the key: the point of section 5.3.5. */
  lemma {:induction false} InvMixThroughKey(s: State, k: State)
    ensures InvMixColumns(AddRoundKey(MixColumns(s), k)) == AddRoundKey(s, InvMixColumns(k))
    ensures MixColumns(AddRoundKey(InvMixColumns(s), InvMixColumns(k))) == AddRoundKey(s, k)
  {
    hide MixColumn, InvMixColumn, AddCol;
    MixInverse(s.c0);
    MixInverse(s.c1);
    MixInverse(s.c2);
    MixInverse(s.c3);
    InvMixColumnLinear(MixColumn(s.c0), k.c0);
    InvMixColumnLinear(MixColumn(s.c1), k.c1);
    InvMixColumnLinear(MixColumn(s.c2), k.c2);
    InvMixColumnLinear(MixColumn(s.c3), k.c3);
    InvMixColumnLinear(s.c0, k.c0);
    InvMixColumnLinear(s.c1, k.c1);
    InvMixColumnLinear(s.c2, k.c2);
    InvMixColumnLinear(s.c3, k.c3);
    MixInverse(AddCol(s.c0, k.c0));
    MixInverse(AddCol(s.c1, k.c1));
    MixInverse(AddCol(s.c2, k.c2));
    MixInverse(AddCol(s.c3, k.c3));
  }

  // --- the two ciphers are inverse ---

  /** Going down from round nr, decryption meets the states of encryption one half-round earlier. */
  lemma {:induction false} DecryptionRetraces(s: State, w: seq<Col>, dw: seq<Col>, nr: nat, r: nat)
    requires InverseSchedule(w, dw, nr) && 1 <= r <= nr
    ensures InvRounds(Cipher(s, w, nr), dw, nr, r) == ShiftRows(SubBytes(Rounds(s, w, r - 1)))
    decreases nr - r
  {
    hide SubBytes, ShiftRows, InvSubBytes, InvShiftRows, MixColumns, InvMixColumns, AddRoundKey, RoundKey;
    var mid := ShiftRows(SubBytes(Rounds(s, w, r - 1)));
    if r == nr {
      KeyCancel(mid, RoundKey(w, nr));
    } else {
      DecryptionRetraces(s, w, dw, nr, r + 1);
      UndoSub(Rounds(s, w, r));
      InvMixThroughKey(mid, RoundKey(w, r));
      KeyCancel(mid, InvMixColumns(RoundKey(w, r)));
    }
  }

  lemma {:induction false} DecryptEncrypt(s: State, w: seq<Col>, dw: seq<Col>, nr: nat)
    requires InverseSchedule(w, dw, nr)
    ensures EqInvCipher(Cipher(s, w, nr), dw, nr) == s
  {
    hide SubBytes, ShiftRows, InvSubBytes, InvShiftRows, MixColumns, InvMixColumns, AddRoundKey, RoundKey;
    DecryptionRetraces(s, w, dw, nr, 1);
    UndoSub(AddRoundKey(s, RoundKey(w, 0)));
    KeyCancel(s, RoundKey(w, 0));
  }

  /** Encrypting a decrypted block meets the states of the decryption. */
  lemma {:induction false} EncryptionRetraces(t: State, w: seq<Col>, dw: seq<Col>, nr: nat, r: nat)
    requires InverseSchedule(w, dw, nr) && r < nr
    ensures Rounds(EqInvCipher(t, dw, nr), w, r) == InvSubBytes(InvShiftRows(InvRounds(t, dw, nr, r + 1)))
  {
    hide SubBytes, ShiftRows, InvSubBytes, InvShiftRows, MixColumns, InvMixColumns, AddRoundKey, RoundKey;
    var mid := InvSubBytes(InvShiftRows(InvRounds(t, dw, nr, r + 1)));
    if r == 0 {
      KeyCancel(mid, RoundKey(w, 0));
    } else {
      EncryptionRetraces(t, w, dw, nr, r - 1);
      UndoSub(InvRounds(t, dw, nr, r));
      InvMixThroughKey(mid, RoundKey(w, r));
      KeyCancel(mid, RoundKey(w, r));
    }
  }

  lemma {:induction false} EncryptDecrypt(t: State, w: seq<Col>, dw: seq<Col>, nr: nat)
    requires InverseSchedule(w, dw, nr)
    ensures Cipher(EqInvCipher(t, dw, nr), w, nr) == t
  {
    hide SubBytes, ShiftRows, InvSubBytes, InvShiftRows, MixColumns, InvMixColumns, AddRoundKey, RoundKey;
    EncryptionRetraces(t, w, dw, nr, nr - 1);
    UndoSub(InvRounds(t, dw, nr, nr));
    KeyCancel(t, RoundKey(w, nr));
  }
}
