// Published examples of AES: key schedule words of Appendix A and the ciphertexts of Appendix C of FIPS 197, computed
// from the definitions the program is proved against.
module AesVectors {
  import opened AesTables
  import opened Gf256
  import opened Fips197
  import opened AesWords
  import opened Aes

  // --- one row of the key schedule: as many words as the key has ---

  /** The word that starts a row. */
  function RowStart(first: Col, last: Col, rcon: bv8): Col {
    AddCol(first, AddCol(SubColumn(RotWord(last)), Col(rcon, 0, 0, 0)))
  }

  lemma {:induction false} Row4(key: seq<bv8>, q: nat, rcon: bv8,
      k0: Col, k1: Col, k2: Col, k3: Col)
    returns (n0: Col, n1: Col, n2: Col, n3: Col)
    requires |key| >= 16 && rcon == Rcon(q + 1)
    requires KeyWord(key, 4, 4 * q) == k0 && KeyWord(key, 4, 4 * q + 1) == k1
    requires KeyWord(key, 4, 4 * q + 2) == k2 && KeyWord(key, 4, 4 * q + 3) == k3
    ensures n0 == RowStart(k0, k3, rcon)
    ensures n1 == AddCol(k1, n0) && n2 == AddCol(k2, n1) && n3 == AddCol(k3, n2)
    ensures KeyWord(key, 4, 4 * q + 4) == n0 && KeyWord(key, 4, 4 * q + 5) == n1
    ensures KeyWord(key, 4, 4 * q + 6) == n2 && KeyWord(key, 4, 4 * q + 7) == n3
  {
    hide AddCol, SubColumn, RotWord, Rcon, KeyWord;
    n0 := RowStart(k0, k3, rcon);
    NextWord(key, 4, 4 * q + 4, q + 1, 0);
    n1 := AddCol(k1, n0);
    NextWord(key, 4, 4 * q + 5, q + 1, 1);
    n2 := AddCol(k2, n1);
    NextWord(key, 4, 4 * q + 6, q + 1, 2);
    n3 := AddCol(k3, n2);
    NextWord(key, 4, 4 * q + 7, q + 1, 3);
  }

  lemma {:induction false} Row6(key: seq<bv8>, q: nat, rcon: bv8,
      k0: Col, k1: Col, k2: Col, k3: Col, k4: Col, k5: Col)
    returns (n0: Col, n1: Col, n2: Col, n3: Col, n4: Col, n5: Col)
    requires |key| >= 24 && rcon == Rcon(q + 1)
    requires KeyWord(key, 6, 6 * q) == k0 && KeyWord(key, 6, 6 * q + 1) == k1
    requires KeyWord(key, 6, 6 * q + 2) == k2 && KeyWord(key, 6, 6 * q + 3) == k3
    requires KeyWord(key, 6, 6 * q + 4) == k4 && KeyWord(key, 6, 6 * q + 5) == k5
    ensures n0 == RowStart(k0, k5, rcon)
    ensures n1 == AddCol(k1, n0) && n2 == AddCol(k2, n1) && n3 == AddCol(k3, n2)
    ensures n4 == AddCol(k4, n3) && n5 == AddCol(k5, n4)
    ensures KeyWord(key, 6, 6 * q + 6) == n0 && KeyWord(key, 6, 6 * q + 7) == n1
    ensures KeyWord(key, 6, 6 * q + 8) == n2 && KeyWord(key, 6, 6 * q + 9) == n3
    ensures KeyWord(key, 6, 6 * q + 10) == n4 && KeyWord(key, 6, 6 * q + 11) == n5
  {
    hide AddCol, SubColumn, RotWord, Rcon, KeyWord;
    n0 := RowStart(k0, k5, rcon);
    NextWord(key, 6, 6 * q + 6, q + 1, 0);
    n1 := AddCol(k1, n0);
    NextWord(key, 6, 6 * q + 7, q + 1, 1);
    n2 := AddCol(k2, n1);
    NextWord(key, 6, 6 * q + 8, q + 1, 2);
    n3 := AddCol(k3, n2);
    NextWord(key, 6, 6 * q + 9, q + 1, 3);
    n4 := AddCol(k4, n3);
    NextWord(key, 6, 6 * q + 10, q + 1, 4);
    n5 := AddCol(k5, n4);
    NextWord(key, 6, 6 * q + 11, q + 1, 5);
  }

  lemma {:induction false} Row8(key: seq<bv8>, q: nat, rcon: bv8,
      k0: Col, k1: Col, k2: Col, k3: Col, k4: Col, k5: Col, k6: Col, k7: Col)
    returns (n0: Col, n1: Col, n2: Col, n3: Col, n4: Col, n5: Col, n6: Col, n7: Col)
    requires |key| >= 32 && rcon == Rcon(q + 1)
    requires KeyWord(key, 8, 8 * q) == k0 && KeyWord(key, 8, 8 * q + 1) == k1
    requires KeyWord(key, 8, 8 * q + 2) == k2 && KeyWord(key, 8, 8 * q + 3) == k3
    requires KeyWord(key, 8, 8 * q + 4) == k4 && KeyWord(key, 8, 8 * q + 5) == k5
    requires KeyWord(key, 8, 8 * q + 6) == k6 && KeyWord(key, 8, 8 * q + 7) == k7
    ensures n0 == RowStart(k0, k7, rcon)
    ensures n1 == AddCol(k1, n0) && n2 == AddCol(k2, n1) && n3 == AddCol(k3, n2) && n4 == AddCol(k4, SubColumn(n3))
    ensures n5 == AddCol(k5, n4) && n6 == AddCol(k6, n5) && n7 == AddCol(k7, n6)
    ensures KeyWord(key, 8, 8 * q + 8) == n0 && KeyWord(key, 8, 8 * q + 9) == n1
    ensures KeyWord(key, 8, 8 * q + 10) == n2 && KeyWord(key, 8, 8 * q + 11) == n3
    ensures KeyWord(key, 8, 8 * q + 12) == n4 && KeyWord(key, 8, 8 * q + 13) == n5
    ensures KeyWord(key, 8, 8 * q + 14) == n6 && KeyWord(key, 8, 8 * q + 15) == n7
  {
    hide AddCol, SubColumn, RotWord, Rcon, KeyWord;
    n0 := RowStart(k0, k7, rcon);
    NextWord(key, 8, 8 * q + 8, q + 1, 0);
    n1 := AddCol(k1, n0);
    NextWord(key, 8, 8 * q + 9, q + 1, 1);
    n2 := AddCol(k2, n1);
    NextWord(key, 8, 8 * q + 10, q + 1, 2);
    n3 := AddCol(k3, n2);
    NextWord(key, 8, 8 * q + 11, q + 1, 3);
    n4 := AddCol(k4, SubColumn(n3));
    NextWord(key, 8, 8 * q + 12, q + 1, 4);
    n5 := AddCol(k5, n4);
    NextWord(key, 8, 8 * q + 13, q + 1, 5);
    n6 := AddCol(k6, n5);
    NextWord(key, 8, 8 * q + 14, q + 1, 6);
    n7 := AddCol(k7, n6);
    NextWord(key, 8, 8 * q + 15, q + 1, 7);
  }

  /** The recursion of section 5.2 for word i in place j of row q. */
  lemma {:induction false} NextWord(key: seq<bv8>, nk: nat, i: nat, q: nat, j: nat)
    requires nk in {4, 6, 8} && |key| >= 4 * nk && 0 < q && j < nk && i == nk * q + j
    ensures var (back, prev) := (KeyWord(key, nk, i - nk), KeyWord(key, nk, i - 1));
      KeyWord(key, nk, i) ==
        if j == 0 then RowStart(back, prev, Rcon(q))
        else if nk > 6 && j == 4 then AddCol(back, SubColumn(prev)) else AddCol(back, prev)
  {
    hide AddCol, SubColumn, RotWord, Rcon;
    assert i / nk == q && i % nk == j;
  }

  lemma {:induction false} FirstRcons()
    ensures Rcon(1) == 0x01 && Rcon(2) == 0x02 && Rcon(3) == 0x04 && Rcon(4) == 0x08 && Rcon(5) == 0x10
    ensures Rcon(6) == 0x20 && Rcon(7) == 0x40 && Rcon(8) == 0x80 && Rcon(9) == 0x1B && Rcon(10) == 0x36
  {
    hide Xtime;
    assert Xtime(0x01) == 0x02 && Xtime(0x02) == 0x04 && Xtime(0x04) == 0x08 by { DoubledBytes(); }
    assert Xtime(0x08) == 0x10 && Xtime(0x10) == 0x20 && Xtime(0x20) == 0x40 by { DoubledBytes(); }
    assert Xtime(0x40) == 0x80 && Xtime(0x80) == 0x1B && Xtime(0x1B) == 0x36 by { DoubledBytes(); }
    assert Rcon(3) == Xtime(Rcon(2));
    assert Rcon(5) == Xtime(Rcon(4));
    assert Rcon(7) == Xtime(Rcon(6));
    assert Rcon(9) == Xtime(Rcon(8));
  }

  lemma {:induction false} DoubledBytes()
    ensures Xtime(0x01) == 0x02 && Xtime(0x02) == 0x04 && Xtime(0x04) == 0x08
    ensures Xtime(0x08) == 0x10 && Xtime(0x10) == 0x20 && Xtime(0x20) == 0x40
    ensures Xtime(0x40) == 0x80 && Xtime(0x80) == 0x1B && Xtime(0x1B) == 0x36
  {}

  lemma {:induction false} KeyWords(key: seq<bv8>, nk: nat, i: nat)
    requires 0 < nk && |key| >= 4 * nk && i < nk
    ensures KeyWord(key, nk, i) == Col(key[4 * i], key[4 * i + 1], key[4 * i + 2], key[4 * i + 3])
  {}

  // --- literals as they are printed: byte 0 of a column first ---

  function Hex(w: bv32): Col {
    Col(((w >> 24) & 0xFF) as bv8, ((w >> 16) & 0xFF) as bv8, ((w >> 8) & 0xFF) as bv8, (w & 0xFF) as bv8)
  }

  function Hex4(a: bv32, b: bv32, c: bv32, d: bv32): State { State(Hex(a), Hex(b), Hex(c), Hex(d)) }

  // --- Appendix A ---

  /** Section A.1 of FIPS 197. */
  lemma {:induction false} A1(key: seq<bv8>)
    requires key == [0x2B, 0x7E, 0x15, 0x16, 0x28, 0xAE, 0xD2, 0xA6, 0xAB, 0xF7, 0x15, 0x88, 0x09, 0xCF, 0x4F, 0x3C]
    ensures KeyExpansion(key, 4)[4] == Hex(0xA0FA_FE17)
  {
    hide KeyWord;
    FirstRcons();
    KeyWords(key, 4, 0);
    KeyWords(key, 4, 1);
    KeyWords(key, 4, 2);
    KeyWords(key, 4, 3);
    var n0, n1, n2, n3 :=
      Row4(key, 0, 0x01, KeyWord(key, 4, 0), KeyWord(key, 4, 1), KeyWord(key, 4, 2), KeyWord(key, 4, 3));
  }

  /** Section A.2 of FIPS 197. */
  lemma {:induction false} A2(key: seq<bv8>)
    requires key == [0x8E, 0x73, 0xB0, 0xF7, 0xDA, 0x0E, 0x64, 0x52, 0xC8, 0x10, 0xF3, 0x2B, 0x80, 0x90, 0x79, 0xE5] +
                    [0x62, 0xF8, 0xEA, 0xD2, 0x52, 0x2C, 0x6B, 0x7B]
    ensures KeyExpansion(key, 6)[6] == Hex(0xFE0C_91F7)
  {
    hide KeyWord;
    FirstRcons();
    KeyWords(key, 6, 0);
    KeyWords(key, 6, 1);
    KeyWords(key, 6, 2);
    KeyWords(key, 6, 3);
    KeyWords(key, 6, 4);
    KeyWords(key, 6, 5);
    var n0, n1, n2, n3, n4, n5 := Row6(key, 0, 0x01,
      KeyWord(key, 6, 0), KeyWord(key, 6, 1), KeyWord(key, 6, 2),
      KeyWord(key, 6, 3), KeyWord(key, 6, 4), KeyWord(key, 6, 5));
  }

  /** Section A.3 of FIPS 197. */
  lemma {:induction false} A3(key: seq<bv8>)
    requires key == [0x60, 0x3D, 0xEB, 0x10, 0x15, 0xCA, 0x71, 0xBE, 0x2B, 0x73, 0xAE, 0xF0, 0x85, 0x7D, 0x77, 0x81] +
                    [0x1F, 0x35, 0x2C, 0x07, 0x3B, 0x61, 0x08, 0xD7, 0x2D, 0x98, 0x10, 0xA3, 0x09, 0x14, 0xDF, 0xF4]
    ensures KeyExpansion(key, 8)[8] == Hex(0x9BA3_5411)
    ensures KeyExpansion(key, 8)[12] == Hex(0xA8B0_9C1A)
  {
    hide KeyWord;
    FirstRcons();
    KeyWords(key, 8, 0);
    KeyWords(key, 8, 1);
    KeyWords(key, 8, 2);
    KeyWords(key, 8, 3);
    KeyWords(key, 8, 4);
    KeyWords(key, 8, 5);
    KeyWords(key, 8, 6);
    KeyWords(key, 8, 7);
    var n0, n1, n2, n3, n4, n5, n6, n7 := Row8(key, 0, 0x01,
      KeyWord(key, 8, 0), KeyWord(key, 8, 1), KeyWord(key, 8, 2), KeyWord(key, 8, 3),
      KeyWord(key, 8, 4), KeyWord(key, 8, 5), KeyWord(key, 8, 6), KeyWord(key, 8, 7));
    assert n0 == Hex(0x9BA3_5411);
    assert n1 == Hex(0x8E69_25AF);
    assert n2 == Hex(0xA51A_8B5F);
    assert n3 == Hex(0x2067_FCDE);
  }

  // --- Appendix C ---

  function Round(s: State, k: State): State { AddRoundKey(MixColumns(ShiftRows(SubBytes(s))), k) }

  lemma {:induction false} NextRound(s: State, w: seq<Col>, r: nat)
    requires 0 < r && 4 * r + 4 <= |w|
    ensures Rounds(s, w, r) == Round(Rounds(s, w, r - 1), RoundKey(w, r))
  {
    hide AddRoundKey, MixColumns, ShiftRows, SubBytes;
  }

  function LastRound(s: State, k: State): State { AddRoundKey(ShiftRows(SubBytes(s)), k) }

  lemma {:induction false} FirstRound(s: State, w: seq<Col>)
    requires 4 <= |w|
    ensures Rounds(s, w, 0) == AddRoundKey(s, RoundKey(w, 0))
  {}

  lemma {:induction false} CipherIs(s: State, w: seq<Col>, nr: nat)
    requires 0 < nr && 4 * nr + 4 <= |w|
    ensures Cipher(s, w, nr) == LastRound(Rounds(s, w, nr - 1), RoundKey(w, nr))
  {
    hide AddRoundKey, ShiftRows, SubBytes;
  }

  lemma {:induction false} KeyLength()
    ensures Nr(4) == 10 && Nr(6) == 12 && Nr(8) == 14
    ensures forall key: seq<bv8> :: (|key| == 16 ==> |KeyExpansion(key, 4)| == 44) &&
              (|key| == 24 ==> |KeyExpansion(key, 6)| == 52) && (|key| == 32 ==> |KeyExpansion(key, 8)| == 60)
  {
    hide KeyWord;
  }

  lemma {:induction false} ScheduleKey(key: seq<bv8>, nk: nat, r: nat)
    requires 0 < nk && |key| >= 4 * nk && r <= Nr(nk)
    ensures RoundKey(KeyExpansion(key, nk), r) ==
            State(KeyWord(key, nk, 4 * r), KeyWord(key, nk, 4 * r + 1),
                  KeyWord(key, nk, 4 * r + 2), KeyWord(key, nk, 4 * r + 3))
  {
    hide KeyWord;
  }

  /** The key of section C.1. */
  function C1Key(): seq<bv8> {
    [0x00, 0x01, 0x02, 0x03, 0x04, 0x05, 0x06, 0x07, 0x08, 0x09, 0x0A, 0x0B, 0x0C, 0x0D, 0x0E, 0x0F]
  }

  lemma {:induction false} C1Length()
    ensures |C1Key()| == 16
  {}

  lemma {:induction false} C1Row0(key: seq<bv8>)
    requires key == C1Key()
    ensures RoundKey(KeyExpansion(key, 4), 0) == Hex4(0x0001_0203, 0x0405_0607, 0x0809_0A0B, 0x0C0D_0E0F)
  {
    hide KeyWord, KeyExpansion, RoundKey, Rcon;
    FirstRcons();
    C1Length();
    KeyLength();
    KeyWords(key, 4, 0);
    KeyWords(key, 4, 1);
    KeyWords(key, 4, 2);
    KeyWords(key, 4, 3);
    ScheduleKey(key, 4, 0);
  }

  lemma {:induction false} C1Row1(key: seq<bv8>)
    requires key == C1Key()
    ensures RoundKey(KeyExpansion(key, 4), 1) == Hex4(0xD6AA_74FD, 0xD2AF_72FA, 0xDAA6_78F1, 0xD6AB_76FE)
  {
    hide KeyWord, KeyExpansion, RoundKey, Rcon, C1Key;
    FirstRcons();
    C1Length();
    KeyLength();
    C1Row0(key);
    ScheduleKey(key, 4, 0);
    var n0, n1, n2, n3 :=
      Row4(key, 0, 0x01, KeyWord(key, 4, 0), KeyWord(key, 4, 1), KeyWord(key, 4, 2), KeyWord(key, 4, 3));
    ScheduleKey(key, 4, 1);
  }

  lemma {:induction false} C1Row2(key: seq<bv8>)
    requires key == C1Key()
    ensures RoundKey(KeyExpansion(key, 4), 2) == Hex4(0xB692_CF0B, 0x643D_BDF1, 0xBE9B_C500, 0x6830_B3FE)
  {
    hide KeyWord, KeyExpansion, RoundKey, Rcon, C1Key;
    FirstRcons();
    C1Length();
    KeyLength();
    C1Row1(key);
    ScheduleKey(key, 4, 1);
    var n0, n1, n2, n3 :=
      Row4(key, 1, 0x02, KeyWord(key, 4, 4), KeyWord(key, 4, 5), KeyWord(key, 4, 6), KeyWord(key, 4, 7));
    ScheduleKey(key, 4, 2);
  }

  lemma {:induction false} C1Row3(key: seq<bv8>)
    requires key == C1Key()
    ensures RoundKey(KeyExpansion(key, 4), 3) == Hex4(0xB6FF_744E, 0xD2C2_C9BF, 0x6C59_0CBF, 0x0469_BF41)
  {
    hide KeyWord, KeyExpansion, RoundKey, Rcon, C1Key;
    FirstRcons();
    C1Length();
    KeyLength();
    C1Row2(key);
    ScheduleKey(key, 4, 2);
    var n0, n1, n2, n3 :=
      Row4(key, 2, 0x04, KeyWord(key, 4, 8), KeyWord(key, 4, 9), KeyWord(key, 4, 10), KeyWord(key, 4, 11));
    ScheduleKey(key, 4, 3);
  }

  lemma {:induction false} C1Row4(key: seq<bv8>)
    requires key == C1Key()
    ensures RoundKey(KeyExpansion(key, 4), 4) == Hex4(0x47F7_F7BC, 0x9535_3E03, 0xF96C_32BC, 0xFD05_8DFD)
  {
    hide KeyWord, KeyExpansion, RoundKey, Rcon, C1Key;
    FirstRcons();
    C1Length();
    KeyLength();
    C1Row3(key);
    ScheduleKey(key, 4, 3);
    var n0, n1, n2, n3 :=
      Row4(key, 3, 0x08, KeyWord(key, 4, 12), KeyWord(key, 4, 13), KeyWord(key, 4, 14), KeyWord(key, 4, 15));
    ScheduleKey(key, 4, 4);
  }

  lemma {:induction false} C1Row5(key: seq<bv8>)
    requires key == C1Key()
    ensures RoundKey(KeyExpansion(key, 4), 5) == Hex4(0x3CAA_A3E8, 0xA99F_9DEB, 0x50F3_AF57, 0xADF6_22AA)
  {
    hide KeyWord, KeyExpansion, RoundKey, Rcon, C1Key;
    FirstRcons();
    C1Length();
    KeyLength();
    C1Row4(key);
    ScheduleKey(key, 4, 4);
    var n0, n1, n2, n3 :=
      Row4(key, 4, 0x10, KeyWord(key, 4, 16), KeyWord(key, 4, 17), KeyWord(key, 4, 18), KeyWord(key, 4, 19));
    ScheduleKey(key, 4, 5);
  }

  lemma {:induction false} C1Row6(key: seq<bv8>)
    requires key == C1Key()
    ensures RoundKey(KeyExpansion(key, 4), 6) == Hex4(0x5E39_0F7D, 0xF7A6_9296, 0xA755_3DC1, 0x0AA3_1F6B)
  {
    hide KeyWord, KeyExpansion, RoundKey, Rcon, C1Key;
    FirstRcons();
    C1Length();
    KeyLength();
    C1Row5(key);
    ScheduleKey(key, 4, 5);
    var n0, n1, n2, n3 :=
      Row4(key, 5, 0x20, KeyWord(key, 4, 20), KeyWord(key, 4, 21), KeyWord(key, 4, 22), KeyWord(key, 4, 23));
    ScheduleKey(key, 4, 6);
  }

  lemma {:induction false} C1Row7(key: seq<bv8>)
    requires key == C1Key()
    ensures RoundKey(KeyExpansion(key, 4), 7) == Hex4(0x14F9_701A, 0xE35F_E28C, 0x440A_DF4D, 0x4EA9_C026)
  {
    hide KeyWord, KeyExpansion, RoundKey, Rcon, C1Key;
    FirstRcons();
    C1Length();
    KeyLength();
    C1Row6(key);
    ScheduleKey(key, 4, 6);
    var n0, n1, n2, n3 :=
      Row4(key, 6, 0x40, KeyWord(key, 4, 24), KeyWord(key, 4, 25), KeyWord(key, 4, 26), KeyWord(key, 4, 27));
    ScheduleKey(key, 4, 7);
  }

  lemma {:induction false} C1Row8(key: seq<bv8>)
    requires key == C1Key()
    ensures RoundKey(KeyExpansion(key, 4), 8) == Hex4(0x4743_8735, 0xA41C_65B9, 0xE016_BAF4, 0xAEBF_7AD2)
  {
    hide KeyWord, KeyExpansion, RoundKey, Rcon, C1Key;
    FirstRcons();
    C1Length();
    KeyLength();
    C1Row7(key);
    ScheduleKey(key, 4, 7);
    var n0, n1, n2, n3 :=
      Row4(key, 7, 0x80, KeyWord(key, 4, 28), KeyWord(key, 4, 29), KeyWord(key, 4, 30), KeyWord(key, 4, 31));
    ScheduleKey(key, 4, 8);
  }

  lemma {:induction false} C1Row9(key: seq<bv8>)
    requires key == C1Key()
    ensures RoundKey(KeyExpansion(key, 4), 9) == Hex4(0x5499_32D1, 0xF085_5768, 0x1093_ED9C, 0xBE2C_974E)
  {
    hide KeyWord, KeyExpansion, RoundKey, Rcon, C1Key;
    FirstRcons();
    C1Length();
    KeyLength();
    C1Row8(key);
    ScheduleKey(key, 4, 8);
    var n0, n1, n2, n3 :=
      Row4(key, 8, 0x1B, KeyWord(key, 4, 32), KeyWord(key, 4, 33), KeyWord(key, 4, 34), KeyWord(key, 4, 35));
    ScheduleKey(key, 4, 9);
  }

  lemma {:induction false} C1Row10(key: seq<bv8>)
    requires key == C1Key()
    ensures RoundKey(KeyExpansion(key, 4), 10) == Hex4(0x1311_1D7F, 0xE394_4A17, 0xF307_A78B, 0x4D2B_30C5)
  {
    hide KeyWord, KeyExpansion, RoundKey, Rcon, C1Key;
    FirstRcons();
    C1Length();
    KeyLength();
    C1Row9(key);
    ScheduleKey(key, 4, 9);
    var n0, n1, n2, n3 :=
      Row4(key, 9, 0x36, KeyWord(key, 4, 36), KeyWord(key, 4, 37), KeyWord(key, 4, 38), KeyWord(key, 4, 39));
    ScheduleKey(key, 4, 10);
  }

  lemma {:induction false} C1Round1(s: State, k: State)
    requires s == Hex4(0x0010_2030, 0x4050_6070, 0x8090_A0B0, 0xC0D0_E0F0)
    requires k == Hex4(0xD6AA_74FD, 0xD2AF_72FA, 0xDAA6_78F1, 0xD6AB_76FE)
    ensures Round(s, k) == Hex4(0x89D8_10E8, 0x855A_CE68, 0x2D18_43D8, 0xCB12_8FE4)
  {}

  lemma {:induction false} C1Round2(s: State, k: State)
    requires s == Hex4(0x89D8_10E8, 0x855A_CE68, 0x2D18_43D8, 0xCB12_8FE4)
    requires k == Hex4(0xB692_CF0B, 0x643D_BDF1, 0xBE9B_C500, 0x6830_B3FE)
    ensures Round(s, k) == Hex4(0x4915_598F, 0x55E5_D7A0, 0xDACA_94FA, 0x1F0A_63F7)
  {}

  lemma {:induction false} C1Round3(s: State, k: State)
    requires s == Hex4(0x4915_598F, 0x55E5_D7A0, 0xDACA_94FA, 0x1F0A_63F7)
    requires k == Hex4(0xB6FF_744E, 0xD2C2_C9BF, 0x6C59_0CBF, 0x0469_BF41)
    ensures Round(s, k) == Hex4(0xFA63_6A28, 0x25B3_39C9, 0x4066_8A31, 0x5724_4D17)
  {}

  lemma {:induction false} C1Round4(s: State, k: State)
    requires s == Hex4(0xFA63_6A28, 0x25B3_39C9, 0x4066_8A31, 0x5724_4D17)
    requires k == Hex4(0x47F7_F7BC, 0x9535_3E03, 0xF96C_32BC, 0xFD05_8DFD)
    ensures Round(s, k) == Hex4(0x2472_4023, 0x6966_B3FA, 0x6ED2_7532, 0x8842_5B6C)
  {}

  lemma {:induction false} C1Round5(s: State, k: State)
    requires s == Hex4(0x2472_4023, 0x6966_B3FA, 0x6ED2_7532, 0x8842_5B6C)
    requires k == Hex4(0x3CAA_A3E8, 0xA99F_9DEB, 0x50F3_AF57, 0xADF6_22AA)
    ensures Round(s, k) == Hex4(0xC816_77BC, 0x9B7A_C93B, 0x2502_7992, 0xB026_1996)
  {}

  lemma {:induction false} C1Round6(s: State, k: State)
    requires s == Hex4(0xC816_77BC, 0x9B7A_C93B, 0x2502_7992, 0xB026_1996)
    requires k == Hex4(0x5E39_0F7D, 0xF7A6_9296, 0xA755_3DC1, 0x0AA3_1F6B)
    ensures Round(s, k) == Hex4(0xC62F_E109, 0xF75E_EDC3, 0xCC79_395D, 0x84F9_CF5D)
  {}

  lemma {:induction false} C1Round7(s: State, k: State)
    requires s == Hex4(0xC62F_E109, 0xF75E_EDC3, 0xCC79_395D, 0x84F9_CF5D)
    requires k == Hex4(0x14F9_701A, 0xE35F_E28C, 0x440A_DF4D, 0x4EA9_C026)
    ensures Round(s, k) == Hex4(0xD187_6C0F, 0x79C4_300A, 0xB455_94AD, 0xD66F_F41F)
  {}

  lemma {:induction false} C1Round8(s: State, k: State)
    requires s == Hex4(0xD187_6C0F, 0x79C4_300A, 0xB455_94AD, 0xD66F_F41F)
    requires k == Hex4(0x4743_8735, 0xA41C_65B9, 0xE016_BAF4, 0xAEBF_7AD2)
    ensures Round(s, k) == Hex4(0xFDE3_BAD2, 0x05E5_D0D7, 0x3547_964E, 0xF1FE_37F1)
  {}

  lemma {:induction false} C1Round9(s: State, k: State)
    requires s == Hex4(0xFDE3_BAD2, 0x05E5_D0D7, 0x3547_964E, 0xF1FE_37F1)
    requires k == Hex4(0x5499_32D1, 0xF085_5768, 0x1093_ED9C, 0xBE2C_974E)
    ensures Round(s, k) == Hex4(0xBD6E_7C3D, 0xF2B5_779E, 0x0B61_216E, 0x8B10_B689)
  {}

  lemma {:induction false} C1Round10(s: State, k: State)
    requires s == Hex4(0xBD6E_7C3D, 0xF2B5_779E, 0x0B61_216E, 0x8B10_B689)
    requires k == Hex4(0x1311_1D7F, 0xE394_4A17, 0xF307_A78B, 0x4D2B_30C5)
    ensures LastRound(s, k) == Hex4(0x69C4_E0D8, 0x6A7B_0430, 0xD8CD_B780, 0x70B4_C55A)
  {}

  lemma {:induction false} C1Start(s: State, k: State)
    requires s == Plain()
    requires k == Hex4(0x0001_0203, 0x0405_0607, 0x0809_0A0B, 0x0C0D_0E0F)
    ensures AddRoundKey(s, k) == Hex4(0x0010_2030, 0x4050_6070, 0x8090_A0B0, 0xC0D0_E0F0)
  {}

  /** Section C.1. */
  lemma {:induction false} C1(key: seq<bv8>, plain: seq<bv8>)
    requires key == C1Key()
    requires plain == [0x00, 0x11, 0x22, 0x33, 0x44, 0x55, 0x66, 0x77, 0x88, 0x99, 0xAA, 0xBB, 0xCC, 0xDD, 0xEE, 0xFF]
    ensures Cipher(BytesState(plain), KeyExpansion(key, 4), 10) ==
            BytesState([0x69, 0xC4, 0xE0, 0xD8, 0x6A, 0x7B, 0x04, 0x30, 0xD8, 0xCD, 0xB7, 0x80, 0x70, 0xB4, 0xC5, 0x5A])
  {
    hide Cipher, KeyExpansion, C1Key;
    KeyLength();
    C1Length();
    var cipher := [0x69, 0xC4, 0xE0, 0xD8, 0x6A, 0x7B, 0x04, 0x30, 0xD8, 0xCD, 0xB7, 0x80, 0x70, 0xB4, 0xC5, 0x5A];
    assert BytesState(plain) == Plain();
    C1State(key, Plain());
    assert BytesState(cipher) == Hex4(0x69C4_E0D8, 0x6A7B_0430, 0xD8CD_B780, 0x70B4_C55A);
  }

  lemma {:induction false} C1State(key: seq<bv8>, s: State)
    requires key == C1Key() && s == Plain()
    ensures Cipher(s, KeyExpansion(key, 4), 10) == Hex4(0x69C4_E0D8, 0x6A7B_0430, 0xD8CD_B780, 0x70B4_C55A)
  {
    hide KeyWord, KeyExpansion, Rounds, Round, LastRound, Cipher, AddRoundKey, RoundKey, Hex, C1Key, Plain;
    KeyLength();
    C1Length();
    var w := KeyExpansion(key, 4);
    ScheduleKey(key, 4, 0);
    C1Row0(key);
    C1Start(s, RoundKey(w, 0));
    FirstRound(s, w);
    C1Row1(key);
    ScheduleKey(key, 4, 1);
    NextRound(s, w, 1);
    C1Round1(Rounds(s, w, 0), RoundKey(w, 1));
    C1Row2(key);
    ScheduleKey(key, 4, 2);
    NextRound(s, w, 2);
    C1Round2(Rounds(s, w, 1), RoundKey(w, 2));
    C1Row3(key);
    ScheduleKey(key, 4, 3);
    NextRound(s, w, 3);
    C1Round3(Rounds(s, w, 2), RoundKey(w, 3));
    C1Row4(key);
    ScheduleKey(key, 4, 4);
    NextRound(s, w, 4);
    C1Round4(Rounds(s, w, 3), RoundKey(w, 4));
    C1Row5(key);
    ScheduleKey(key, 4, 5);
    NextRound(s, w, 5);
    C1Round5(Rounds(s, w, 4), RoundKey(w, 5));
    C1Row6(key);
    ScheduleKey(key, 4, 6);
    NextRound(s, w, 6);
    C1Round6(Rounds(s, w, 5), RoundKey(w, 6));
    C1Row7(key);
    ScheduleKey(key, 4, 7);
    NextRound(s, w, 7);
    C1Round7(Rounds(s, w, 6), RoundKey(w, 7));
    C1Row8(key);
    ScheduleKey(key, 4, 8);
    NextRound(s, w, 8);
    C1Round8(Rounds(s, w, 7), RoundKey(w, 8));
    C1Row9(key);
    ScheduleKey(key, 4, 9);
    NextRound(s, w, 9);
    C1Round9(Rounds(s, w, 8), RoundKey(w, 9));
    C1Row10(key);
    ScheduleKey(key, 4, 10);
    C1Round10(Rounds(s, w, 9), RoundKey(w, 10));
    CipherIs(s, w, 10);
  }

  /** The key of section C.2. */
  function C2Key(): seq<bv8> {
    [0x00, 0x01, 0x02, 0x03, 0x04, 0x05, 0x06, 0x07, 0x08, 0x09, 0x0A, 0x0B, 0x0C, 0x0D, 0x0E, 0x0F] +
    [0x10, 0x11, 0x12, 0x13, 0x14, 0x15, 0x16, 0x17]
  }

  lemma {:induction false} C2Length()
    ensures |C2Key()| == 24
  {}

  lemma {:induction false} C2Row0(key: seq<bv8>, i: nat)
    requires key == C2Key() && i == 0
    ensures KeyWord(key, 6, i) == Hex(0x0001_0203) && KeyWord(key, 6, i + 1) == Hex(0x0405_0607)
    ensures KeyWord(key, 6, i + 2) == Hex(0x0809_0A0B) && KeyWord(key, 6, i + 3) == Hex(0x0C0D_0E0F)
    ensures KeyWord(key, 6, i + 4) == Hex(0x1011_1213) && KeyWord(key, 6, i + 5) == Hex(0x1415_1617)
  {}

  lemma {:induction false} C2Row1(key: seq<bv8>, i: nat)
    requires key == C2Key() && i == 6
    ensures KeyWord(key, 6, i) == Hex(0x5846_F2F9) && KeyWord(key, 6, i + 1) == Hex(0x5C43_F4FE)
    ensures KeyWord(key, 6, i + 2) == Hex(0x544A_FEF5) && KeyWord(key, 6, i + 3) == Hex(0x5847_F0FA)
    ensures KeyWord(key, 6, i + 4) == Hex(0x4856_E2E9) && KeyWord(key, 6, i + 5) == Hex(0x5C43_F4FE)
  {
    hide KeyWord, C2Key, Rcon;
    FirstRcons();
    C2Row0(key, 0);
    C2Length();
    var n0, n1, n2, n3, n4, n5 :=
      Row6(key, 0, 0x01, KeyWord(key, 6, 0), KeyWord(key, 6, 1),
           KeyWord(key, 6, 2), KeyWord(key, 6, 3),
           KeyWord(key, 6, 4), KeyWord(key, 6, 5));
  }

  lemma {:induction false} C2Row2(key: seq<bv8>, i: nat)
    requires key == C2Key() && i == 12
    ensures KeyWord(key, 6, i) == Hex(0x40F9_49B3) && KeyWord(key, 6, i + 1) == Hex(0x1CBA_BD4D)
    ensures KeyWord(key, 6, i + 2) == Hex(0x48F0_43B8) && KeyWord(key, 6, i + 3) == Hex(0x10B7_B342)
    ensures KeyWord(key, 6, i + 4) == Hex(0x58E1_51AB) && KeyWord(key, 6, i + 5) == Hex(0x04A2_A555)
  {
    hide KeyWord, C2Key, Rcon;
    FirstRcons();
    C2Row1(key, 6);
    C2Length();
    var n0, n1, n2, n3, n4, n5 :=
      Row6(key, 1, 0x02, KeyWord(key, 6, 6), KeyWord(key, 6, 7),
           KeyWord(key, 6, 8), KeyWord(key, 6, 9),
           KeyWord(key, 6, 10), KeyWord(key, 6, 11));
  }

  lemma {:induction false} C2Row3(key: seq<bv8>, i: nat)
    requires key == C2Key() && i == 18
    ensures KeyWord(key, 6, i) == Hex(0x7EFF_B541) && KeyWord(key, 6, i + 1) == Hex(0x6245_080C)
    ensures KeyWord(key, 6, i + 2) == Hex(0x2AB5_4BB4) && KeyWord(key, 6, i + 3) == Hex(0x3A02_F8F6)
    ensures KeyWord(key, 6, i + 4) == Hex(0x62E3_A95D) && KeyWord(key, 6, i + 5) == Hex(0x6641_0C08)
  {
    hide KeyWord, C2Key, Rcon;
    FirstRcons();
    C2Row2(key, 12);
    C2Length();
    var n0, n1, n2, n3, n4, n5 :=
      Row6(key, 2, 0x04, KeyWord(key, 6, 12), KeyWord(key, 6, 13),
           KeyWord(key, 6, 14), KeyWord(key, 6, 15),
           KeyWord(key, 6, 16), KeyWord(key, 6, 17));
  }

  lemma {:induction false} C2Row4(key: seq<bv8>, i: nat)
    requires key == C2Key() && i == 24
    ensures KeyWord(key, 6, i) == Hex(0xF501_8572) && KeyWord(key, 6, i + 1) == Hex(0x9744_8D7E)
    ensures KeyWord(key, 6, i + 2) == Hex(0xBDF1_C6CA) && KeyWord(key, 6, i + 3) == Hex(0x87F3_3E3C)
    ensures KeyWord(key, 6, i + 4) == Hex(0xE510_9761) && KeyWord(key, 6, i + 5) == Hex(0x8351_9B69)
  {
    hide KeyWord, C2Key, Rcon;
    FirstRcons();
    C2Row3(key, 18);
    C2Length();
    var n0, n1, n2, n3, n4, n5 :=
      Row6(key, 3, 0x08, KeyWord(key, 6, 18), KeyWord(key, 6, 19),
           KeyWord(key, 6, 20), KeyWord(key, 6, 21),
           KeyWord(key, 6, 22), KeyWord(key, 6, 23));
  }

  lemma {:induction false} C2Row5(key: seq<bv8>, i: nat)
    requires key == C2Key() && i == 30
    ensures KeyWord(key, 6, i) == Hex(0x3415_7C9E) && KeyWord(key, 6, i + 1) == Hex(0xA351_F1E0)
    ensures KeyWord(key, 6, i + 2) == Hex(0x1EA0_372A) && KeyWord(key, 6, i + 3) == Hex(0x9953_0916)
    ensures KeyWord(key, 6, i + 4) == Hex(0x7C43_9E77) && KeyWord(key, 6, i + 5) == Hex(0xFF12_051E)
  {
    hide KeyWord, C2Key, Rcon;
    FirstRcons();
    C2Row4(key, 24);
    C2Length();
    var n0, n1, n2, n3, n4, n5 :=
      Row6(key, 4, 0x10, KeyWord(key, 6, 24), KeyWord(key, 6, 25),
           KeyWord(key, 6, 26), KeyWord(key, 6, 27),
           KeyWord(key, 6, 28), KeyWord(key, 6, 29));
  }

  lemma {:induction false} C2Row6(key: seq<bv8>, i: nat)
    requires key == C2Key() && i == 36
    ensures KeyWord(key, 6, i) == Hex(0xDD7E_0E88) && KeyWord(key, 6, i + 1) == Hex(0x7E2F_FF68)
    ensures KeyWord(key, 6, i + 2) == Hex(0x608F_C842) && KeyWord(key, 6, i + 3) == Hex(0xF9DC_C154)
    ensures KeyWord(key, 6, i + 4) == Hex(0x859F_5F23) && KeyWord(key, 6, i + 5) == Hex(0x7A8D_5A3D)
  {
    hide KeyWord, C2Key, Rcon;
    FirstRcons();
    C2Row5(key, 30);
    C2Length();
    var n0, n1, n2, n3, n4, n5 :=
      Row6(key, 5, 0x20, KeyWord(key, 6, 30), KeyWord(key, 6, 31),
           KeyWord(key, 6, 32), KeyWord(key, 6, 33),
           KeyWord(key, 6, 34), KeyWord(key, 6, 35));
  }

  lemma {:induction false} C2Row7(key: seq<bv8>, i: nat)
    requires key == C2Key() && i == 42
    ensures KeyWord(key, 6, i) == Hex(0xC0C0_2952) && KeyWord(key, 6, i + 1) == Hex(0xBEEF_D63A)
    ensures KeyWord(key, 6, i + 2) == Hex(0xDE60_1E78) && KeyWord(key, 6, i + 3) == Hex(0x27BC_DF2C)
    ensures KeyWord(key, 6, i + 4) == Hex(0xA223_800F) && KeyWord(key, 6, i + 5) == Hex(0xD8AE_DA32)
  {
    hide KeyWord, C2Key, Rcon;
    FirstRcons();
    C2Row6(key, 36);
    C2Length();
    var n0, n1, n2, n3, n4, n5 :=
      Row6(key, 6, 0x40, KeyWord(key, 6, 36), KeyWord(key, 6, 37),
           KeyWord(key, 6, 38), KeyWord(key, 6, 39),
           KeyWord(key, 6, 40), KeyWord(key, 6, 41));
  }

  lemma {:induction false} C2Row8(key: seq<bv8>, i: nat)
    requires key == C2Key() && i == 48
    ensures KeyWord(key, 6, i) == Hex(0xA497_0A33) && KeyWord(key, 6, i + 1) == Hex(0x1A78_DC09)
    ensures KeyWord(key, 6, i + 2) == Hex(0xC418_C271) && KeyWord(key, 6, i + 3) == Hex(0xE3A4_1D5D)
  {
    hide KeyWord, C2Key, Rcon;
    FirstRcons();
    C2Row7(key, 42);
    C2Length();
    var n0, n1, n2, n3, n4, n5 :=
      Row6(key, 7, 0x80, KeyWord(key, 6, 42), KeyWord(key, 6, 43),
           KeyWord(key, 6, 44), KeyWord(key, 6, 45),
           KeyWord(key, 6, 46), KeyWord(key, 6, 47));
  }

  lemma {:induction false} C2Round1(s: State, k: State)
    requires s == Hex4(0x0010_2030, 0x4050_6070, 0x8090_A0B0, 0xC0D0_E0F0)
    requires k == Hex4(0x1011_1213, 0x1415_1617, 0x5846_F2F9, 0x5C43_F4FE)
    ensures Round(s, k) == Hex4(0x4F63_7606, 0x43E0_AA85, 0xAFF8_C9D0, 0x41FA_0DE4)
  {}

  lemma {:induction false} C2Round2(s: State, k: State)
    requires s == Hex4(0x4F63_7606, 0x43E0_AA85, 0xAFF8_C9D0, 0x41FA_0DE4)
    requires k == Hex4(0x544A_FEF5, 0x5847_F0FA, 0x4856_E2E9, 0x5C43_F4FE)
    ensures Round(s, k) == Hex4(0xCB02_818C, 0x17D2_AF9C, 0x62AA_6442, 0x8BB2_5FD7)
  {}

  lemma {:induction false} C2Round3(s: State, k: State)
    requires s == Hex4(0xCB02_818C, 0x17D2_AF9C, 0x62AA_6442, 0x8BB2_5FD7)
    requires k == Hex4(0x40F9_49B3, 0x1CBA_BD4D, 0x48F0_43B8, 0x10B7_B342)
    ensures Round(s, k) == Hex4(0xF75C_7778, 0xA327_C8ED, 0x8CFE_BFC1, 0xA6C3_7F53)
  {}

  lemma {:induction false} C2Round4(s: State, k: State)
    requires s == Hex4(0xF75C_7778, 0xA327_C8ED, 0x8CFE_BFC1, 0xA6C3_7F53)
    requires k == Hex4(0x58E1_51AB, 0x04A2_A555, 0x7EFF_B541, 0x6245_080C)
    ensures Round(s, k) == Hex4(0x22FF_C916, 0xA814_7441, 0x6496_F19C, 0x64AE_2532)
  {}

  lemma {:induction false} C2Round5(s: State, k: State)
    requires s == Hex4(0x22FF_C916, 0xA814_7441, 0x6496_F19C, 0x64AE_2532)
    requires k == Hex4(0x2AB5_4BB4, 0x3A02_F8F6, 0x62E3_A95D, 0x6641_0C08)
    ensures Round(s, k) == Hex4(0x8012_1E07, 0x76FD_1D8A, 0x8D8C_31BC, 0x965D_1FEE)
  {}

  lemma {:induction false} C2Round6(s: State, k: State)
    requires s == Hex4(0x8012_1E07, 0x76FD_1D8A, 0x8D8C_31BC, 0x965D_1FEE)
    requires k == Hex4(0xF501_8572, 0x9744_8D7E, 0xBDF1_C6CA, 0x87F3_3E3C)
    ensures Round(s, k) == Hex4(0x671E_F1FD, 0x4E2A_1E03, 0xDFDC_B1EF, 0x3D78_9B30)
  {}

  lemma {:induction false} C2Round7(s: State, k: State)
    requires s == Hex4(0x671E_F1FD, 0x4E2A_1E03, 0xDFDC_B1EF, 0x3D78_9B30)
    requires k == Hex4(0xE510_9761, 0x8351_9B69, 0x3415_7C9E, 0xA351_F1E0)
    ensures Round(s, k) == Hex4(0x0C03_70D0, 0x0C01_E622, 0x166B_8ACC, 0xD6DB_3A2C)
  {}

  lemma {:induction false} C2Round8(s: State, k: State)
    requires s == Hex4(0x0C03_70D0, 0x0C01_E622, 0x166B_8ACC, 0xD6DB_3A2C)
    requires k == Hex4(0x1EA0_372A, 0x9953_0916, 0x7C43_9E77, 0xFF12_051E)
    ensures Round(s, k) == Hex4(0x7255_DAD3, 0x0FB8_0310, 0xE00D_6C6B, 0x40D0_527C)
  {}

  lemma {:induction false} C2Round9(s: State, k: State)
    requires s == Hex4(0x7255_DAD3, 0x0FB8_0310, 0xE00D_6C6B, 0x40D0_527C)
    requires k == Hex4(0xDD7E_0E88, 0x7E2F_FF68, 0x608F_C842, 0xF9DC_C154)
    ensures Round(s, k) == Hex4(0xA906_B254, 0x968A_F4E9, 0xB4BD_B2D2, 0xF0C4_4336)
  {}

  lemma {:induction false} C2Round10(s: State, k: State)
    requires s == Hex4(0xA906_B254, 0x968A_F4E9, 0xB4BD_B2D2, 0xF0C4_4336)
    requires k == Hex4(0x859F_5F23, 0x7A8D_5A3D, 0xC0C0_2952, 0xBEEF_D63A)
    ensures Round(s, k) == Hex4(0x88EC_930E, 0xF5E7_E4B6, 0xCC32_F4C9, 0x06D2_9414)
  {}

  lemma {:induction false} C2Round11(s: State, k: State)
    requires s == Hex4(0x88EC_930E, 0xF5E7_E4B6, 0xCC32_F4C9, 0x06D2_9414)
    requires k == Hex4(0xDE60_1E78, 0x27BC_DF2C, 0xA223_800F, 0xD8AE_DA32)
    ensures Round(s, k) == Hex4(0xAFB7_3EEB, 0x1CD1_B851, 0x6228_0F27, 0xFB20_D585)
  {}

  lemma {:induction false} C2Round12(s: State, k: State)
    requires s == Hex4(0xAFB7_3EEB, 0x1CD1_B851, 0x6228_0F27, 0xFB20_D585)
    requires k == Hex4(0xA497_0A33, 0x1A78_DC09, 0xC418_C271, 0xE3A4_1D5D)
    ensures LastRound(s, k) == Hex4(0xDDA9_7CA4, 0x864C_DFE0, 0x6EAF_70A0, 0xEC0D_7191)
  {}

  lemma {:induction false} C2Start(s: State, k: State)
    requires s == Plain()
    requires k == Hex4(0x0001_0203, 0x0405_0607, 0x0809_0A0B, 0x0C0D_0E0F)
    ensures AddRoundKey(s, k) == Hex4(0x0010_2030, 0x4050_6070, 0x8090_A0B0, 0xC0D0_E0F0)
  {}

  /** Section C.2. */
  lemma {:induction false} C2(key: seq<bv8>, plain: seq<bv8>)
    requires key == C2Key()
    requires plain == [0x00, 0x11, 0x22, 0x33, 0x44, 0x55, 0x66, 0x77, 0x88, 0x99, 0xAA, 0xBB, 0xCC, 0xDD, 0xEE, 0xFF]
    ensures Cipher(BytesState(plain), KeyExpansion(key, 6), 12) ==
            BytesState([0xDD, 0xA9, 0x7C, 0xA4, 0x86, 0x4C, 0xDF, 0xE0, 0x6E, 0xAF, 0x70, 0xA0, 0xEC, 0x0D, 0x71, 0x91])
  {
    hide Cipher, KeyExpansion, C2Key;
    KeyLength();
    C2Length();
    var cipher := [0xDD, 0xA9, 0x7C, 0xA4, 0x86, 0x4C, 0xDF, 0xE0, 0x6E, 0xAF, 0x70, 0xA0, 0xEC, 0x0D, 0x71, 0x91];
    assert BytesState(plain) == Plain();
    C2State(key, Plain());
    assert BytesState(cipher) == Hex4(0xDDA9_7CA4, 0x864C_DFE0, 0x6EAF_70A0, 0xEC0D_7191);
  }

  lemma {:induction false} C2State(key: seq<bv8>, s: State)
    requires key == C2Key() && s == Plain()
    ensures Cipher(s, KeyExpansion(key, 6), 12) == Hex4(0xDDA9_7CA4, 0x864C_DFE0, 0x6EAF_70A0, 0xEC0D_7191)
  {
    hide KeyWord, KeyExpansion, Rounds, Round, LastRound, Cipher, AddRoundKey, RoundKey, Hex, C2Key, Plain;
    KeyLength();
    C2Length();
    var w := KeyExpansion(key, 6);
    ScheduleKey(key, 6, 0);
    C2Row0(key, 0);
    C2Start(s, RoundKey(w, 0));
    FirstRound(s, w);
    C2Row1(key, 6);
    ScheduleKey(key, 6, 1);
    NextRound(s, w, 1);
    C2Round1(Rounds(s, w, 0), RoundKey(w, 1));
    ScheduleKey(key, 6, 2);
    NextRound(s, w, 2);
    C2Round2(Rounds(s, w, 1), RoundKey(w, 2));
    C2Row2(key, 12);
    ScheduleKey(key, 6, 3);
    NextRound(s, w, 3);
    C2Round3(Rounds(s, w, 2), RoundKey(w, 3));
    C2Row3(key, 18);
    ScheduleKey(key, 6, 4);
    NextRound(s, w, 4);
    C2Round4(Rounds(s, w, 3), RoundKey(w, 4));
    ScheduleKey(key, 6, 5);
    NextRound(s, w, 5);
    C2Round5(Rounds(s, w, 4), RoundKey(w, 5));
    C2Row4(key, 24);
    ScheduleKey(key, 6, 6);
    NextRound(s, w, 6);
    C2Round6(Rounds(s, w, 5), RoundKey(w, 6));
    C2Row5(key, 30);
    ScheduleKey(key, 6, 7);
    NextRound(s, w, 7);
    C2Round7(Rounds(s, w, 6), RoundKey(w, 7));
    ScheduleKey(key, 6, 8);
    NextRound(s, w, 8);
    C2Round8(Rounds(s, w, 7), RoundKey(w, 8));
    C2Row6(key, 36);
    ScheduleKey(key, 6, 9);
    NextRound(s, w, 9);
    C2Round9(Rounds(s, w, 8), RoundKey(w, 9));
    C2Row7(key, 42);
    ScheduleKey(key, 6, 10);
    NextRound(s, w, 10);
    C2Round10(Rounds(s, w, 9), RoundKey(w, 10));
    ScheduleKey(key, 6, 11);
    NextRound(s, w, 11);
    C2Round11(Rounds(s, w, 10), RoundKey(w, 11));
    C2Row8(key, 48);
    ScheduleKey(key, 6, 12);
    C2Round12(Rounds(s, w, 11), RoundKey(w, 12));
    CipherIs(s, w, 12);
  }

  /** The key of section C.3. */
  function C3Key(): seq<bv8> {
    [0x00, 0x01, 0x02, 0x03, 0x04, 0x05, 0x06, 0x07, 0x08, 0x09, 0x0A, 0x0B, 0x0C, 0x0D, 0x0E, 0x0F] +
    [0x10, 0x11, 0x12, 0x13, 0x14, 0x15, 0x16, 0x17, 0x18, 0x19, 0x1A, 0x1B, 0x1C, 0x1D, 0x1E, 0x1F]
  }

  lemma {:induction false} C3Length()
    ensures |C3Key()| == 32
  {}

  lemma {:induction false} C3Row0(key: seq<bv8>, i: nat)
    requires key == C3Key() && i == 0
    ensures KeyWord(key, 8, i) == Hex(0x0001_0203) && KeyWord(key, 8, i + 1) == Hex(0x0405_0607)
    ensures KeyWord(key, 8, i + 2) == Hex(0x0809_0A0B) && KeyWord(key, 8, i + 3) == Hex(0x0C0D_0E0F)
    ensures KeyWord(key, 8, i + 4) == Hex(0x1011_1213) && KeyWord(key, 8, i + 5) == Hex(0x1415_1617)
    ensures KeyWord(key, 8, i + 6) == Hex(0x1819_1A1B) && KeyWord(key, 8, i + 7) == Hex(0x1C1D_1E1F)
  {}

  lemma {:induction false} C3Row1(key: seq<bv8>, i: nat)
    requires key == C3Key() && i == 8
    ensures KeyWord(key, 8, i) == Hex(0xA573_C29F) && KeyWord(key, 8, i + 1) == Hex(0xA176_C498)
    ensures KeyWord(key, 8, i + 2) == Hex(0xA97F_CE93) && KeyWord(key, 8, i + 3) == Hex(0xA572_C09C)
    ensures KeyWord(key, 8, i + 4) == Hex(0x1651_A8CD) && KeyWord(key, 8, i + 5) == Hex(0x0244_BEDA)
    ensures KeyWord(key, 8, i + 6) == Hex(0x1A5D_A4C1) && KeyWord(key, 8, i + 7) == Hex(0x0640_BADE)
  {
    hide KeyWord, C3Key, Rcon;
    FirstRcons();
    C3Row0(key, 0);
    C3Length();
    var n0, n1, n2, n3, n4, n5, n6, n7 :=
      Row8(key, 0, 0x01, KeyWord(key, 8, 0), KeyWord(key, 8, 1),
           KeyWord(key, 8, 2), KeyWord(key, 8, 3),
           KeyWord(key, 8, 4), KeyWord(key, 8, 5),
           KeyWord(key, 8, 6), KeyWord(key, 8, 7));
  }

  lemma {:induction false} C3Row2(key: seq<bv8>, i: nat)
    requires key == C3Key() && i == 16
    ensures KeyWord(key, 8, i) == Hex(0xAE87_DFF0) && KeyWord(key, 8, i + 1) == Hex(0x0FF1_1B68)
    ensures KeyWord(key, 8, i + 2) == Hex(0xA68E_D5FB) && KeyWord(key, 8, i + 3) == Hex(0x03FC_1567)
    ensures KeyWord(key, 8, i + 4) == Hex(0x6DE1_F148) && KeyWord(key, 8, i + 5) == Hex(0x6FA5_4F92)
    ensures KeyWord(key, 8, i + 6) == Hex(0x75F8_EB53) && KeyWord(key, 8, i + 7) == Hex(0x73B8_518D)
  {
    hide KeyWord, C3Key, Rcon;
    FirstRcons();
    C3Row1(key, 8);
    C3Length();
    var n0, n1, n2, n3, n4, n5, n6, n7 :=
      Row8(key, 1, 0x02, KeyWord(key, 8, 8), KeyWord(key, 8, 9),
           KeyWord(key, 8, 10), KeyWord(key, 8, 11),
           KeyWord(key, 8, 12), KeyWord(key, 8, 13),
           KeyWord(key, 8, 14), KeyWord(key, 8, 15));
  }

  lemma {:induction false} C3Row3(key: seq<bv8>, i: nat)
    requires key == C3Key() && i == 24
    ensures KeyWord(key, 8, i) == Hex(0xC656_827F) && KeyWord(key, 8, i + 1) == Hex(0xC9A7_9917)
    ensures KeyWord(key, 8, i + 2) == Hex(0x6F29_4CEC) && KeyWord(key, 8, i + 3) == Hex(0x6CD5_598B)
    ensures KeyWord(key, 8, i + 4) == Hex(0x3DE2_3A75) && KeyWord(key, 8, i + 5) == Hex(0x5247_75E7)
    ensures KeyWord(key, 8, i + 6) == Hex(0x27BF_9EB4) && KeyWord(key, 8, i + 7) == Hex(0x5407_CF39)
  {
    hide KeyWord, C3Key, Rcon;
    FirstRcons();
    C3Row2(key, 16);
    C3Length();
    var n0, n1, n2, n3, n4, n5, n6, n7 :=
      Row8(key, 2, 0x04, KeyWord(key, 8, 16), KeyWord(key, 8, 17),
           KeyWord(key, 8, 18), KeyWord(key, 8, 19),
           KeyWord(key, 8, 20), KeyWord(key, 8, 21),
           KeyWord(key, 8, 22), KeyWord(key, 8, 23));
  }

  lemma {:induction false} C3Row4(key: seq<bv8>, i: nat)
    requires key == C3Key() && i == 32
    ensures KeyWord(key, 8, i) == Hex(0x0BDC_905F) && KeyWord(key, 8, i + 1) == Hex(0xC27B_0948)
    ensures KeyWord(key, 8, i + 2) == Hex(0xAD52_45A4) && KeyWord(key, 8, i + 3) == Hex(0xC187_1C2F)
    ensures KeyWord(key, 8, i + 4) == Hex(0x45F5_A660) && KeyWord(key, 8, i + 5) == Hex(0x17B2_D387)
    ensures KeyWord(key, 8, i + 6) == Hex(0x300D_4D33) && KeyWord(key, 8, i + 7) == Hex(0x640A_820A)
  {
    hide KeyWord, C3Key, Rcon;
    FirstRcons();
    C3Row3(key, 24);
    C3Length();
    var n0, n1, n2, n3, n4, n5, n6, n7 :=
      Row8(key, 3, 0x08, KeyWord(key, 8, 24), KeyWord(key, 8, 25),
           KeyWord(key, 8, 26), KeyWord(key, 8, 27),
           KeyWord(key, 8, 28), KeyWord(key, 8, 29),
           KeyWord(key, 8, 30), KeyWord(key, 8, 31));
  }

  lemma {:induction false} C3Row5(key: seq<bv8>, i: nat)
    requires key == C3Key() && i == 40
    ensures KeyWord(key, 8, i) == Hex(0x7CCF_F71C) && KeyWord(key, 8, i + 1) == Hex(0xBEB4_FE54)
    ensures KeyWord(key, 8, i + 2) == Hex(0x13E6_BBF0) && KeyWord(key, 8, i + 3) == Hex(0xD261_A7DF)
    ensures KeyWord(key, 8, i + 4) == Hex(0xF01A_FAFE) && KeyWord(key, 8, i + 5) == Hex(0xE7A8_2979)
    ensures KeyWord(key, 8, i + 6) == Hex(0xD7A5_644A) && KeyWord(key, 8, i + 7) == Hex(0xB3AF_E640)
  {
    hide KeyWord, C3Key, Rcon;
    FirstRcons();
    C3Row4(key, 32);
    C3Length();
    var n0, n1, n2, n3, n4, n5, n6, n7 :=
      Row8(key, 4, 0x10, KeyWord(key, 8, 32), KeyWord(key, 8, 33),
           KeyWord(key, 8, 34), KeyWord(key, 8, 35),
           KeyWord(key, 8, 36), KeyWord(key, 8, 37),
           KeyWord(key, 8, 38), KeyWord(key, 8, 39));
  }

  lemma {:induction false} C3Row6(key: seq<bv8>, i: nat)
    requires key == C3Key() && i == 48
    ensures KeyWord(key, 8, i) == Hex(0x2541_FE71) && KeyWord(key, 8, i + 1) == Hex(0x9BF5_0025)
    ensures KeyWord(key, 8, i + 2) == Hex(0x8813_BBD5) && KeyWord(key, 8, i + 3) == Hex(0x5A72_1C0A)
    ensures KeyWord(key, 8, i + 4) == Hex(0x4E5A_6699) && KeyWord(key, 8, i + 5) == Hex(0xA9F2_4FE0)
    ensures KeyWord(key, 8, i + 6) == Hex(0x7E57_2BAA) && KeyWord(key, 8, i + 7) == Hex(0xCDF8_CDEA)
  {
    hide KeyWord, C3Key, Rcon;
    FirstRcons();
    C3Row5(key, 40);
    C3Length();
    var n0, n1, n2, n3, n4, n5, n6, n7 :=
      Row8(key, 5, 0x20, KeyWord(key, 8, 40), KeyWord(key, 8, 41),
           KeyWord(key, 8, 42), KeyWord(key, 8, 43),
           KeyWord(key, 8, 44), KeyWord(key, 8, 45),
           KeyWord(key, 8, 46), KeyWord(key, 8, 47));
  }

  lemma {:induction false} C3Row7(key: seq<bv8>, i: nat)
    requires key == C3Key() && i == 56
    ensures KeyWord(key, 8, i) == Hex(0x24FC_79CC) && KeyWord(key, 8, i + 1) == Hex(0xBF09_79E9)
    ensures KeyWord(key, 8, i + 2) == Hex(0x371A_C23C) && KeyWord(key, 8, i + 3) == Hex(0x6D68_DE36)
  {
    hide KeyWord, C3Key, Rcon;
    FirstRcons();
    C3Row6(key, 48);
    C3Length();
    var n0, n1, n2, n3, n4, n5, n6, n7 :=
      Row8(key, 6, 0x40, KeyWord(key, 8, 48), KeyWord(key, 8, 49),
           KeyWord(key, 8, 50), KeyWord(key, 8, 51),
           KeyWord(key, 8, 52), KeyWord(key, 8, 53),
           KeyWord(key, 8, 54), KeyWord(key, 8, 55));
  }

  lemma {:induction false} C3Round1(s: State, k: State)
    requires s == Hex4(0x0010_2030, 0x4050_6070, 0x8090_A0B0, 0xC0D0_E0F0)
    requires k == Hex4(0x1011_1213, 0x1415_1617, 0x1819_1A1B, 0x1C1D_1E1F)
    ensures Round(s, k) == Hex4(0x4F63_7606, 0x43E0_AA85, 0xEFA7_2132, 0x01A4_E705)
  {}

  lemma {:induction false} C3Round2(s: State, k: State)
    requires s == Hex4(0x4F63_7606, 0x43E0_AA85, 0xEFA7_2132, 0x01A4_E705)
    requires k == Hex4(0xA573_C29F, 0xA176_C498, 0xA97F_CE93, 0xA572_C09C)
    ensures Round(s, k) == Hex4(0x1859_FBC2, 0x8A1C_00A0, 0x78ED_8AAD, 0xC42F_6109)
  {}

  lemma {:induction false} C3Round3(s: State, k: State)
    requires s == Hex4(0x1859_FBC2, 0x8A1C_00A0, 0x78ED_8AAD, 0xC42F_6109)
    requires k == Hex4(0x1651_A8CD, 0x0244_BEDA, 0x1A5D_A4C1, 0x0640_BADE)
    ensures Round(s, k) == Hex4(0x975C_66C1, 0xCB9F_3FA8, 0xA93A_28DF, 0x8EE1_0F63)
  {}

  lemma {:induction false} C3Round4(s: State, k: State)
    requires s == Hex4(0x975C_66C1, 0xCB9F_3FA8, 0xA93A_28DF, 0x8EE1_0F63)
    requires k == Hex4(0xAE87_DFF0, 0x0FF1_1B68, 0xA68E_D5FB, 0x03FC_1567)
    ensures Round(s, k) == Hex4(0x1C05_F271, 0xA417_E04F, 0xF921_C5C1, 0x0470_1554)
  {}

  lemma {:induction false} C3Round5(s: State, k: State)
    requires s == Hex4(0x1C05_F271, 0xA417_E04F, 0xF921_C5C1, 0x0470_1554)
    requires k == Hex4(0x6DE1_F148, 0x6FA5_4F92, 0x75F8_EB53, 0x73B8_518D)
    ensures Round(s, k) == Hex4(0xC357_AAE1, 0x1B45_B7B0, 0xA2C7_BD28, 0xA8DC_99FA)
  {}

  lemma {:induction false} C3Round6(s: State, k: State)
    requires s == Hex4(0xC357_AAE1, 0x1B45_B7B0, 0xA2C7_BD28, 0xA8DC_99FA)
    requires k == Hex4(0xC656_827F, 0xC9A7_9917, 0x6F29_4CEC, 0x6CD5_598B)
    ensures Round(s, k) == Hex4(0x7F07_4143, 0xCB4E_243E, 0xC10C_815D, 0x8375_D54C)
  {}

  lemma {:induction false} C3Round7(s: State, k: State)
    requires s == Hex4(0x7F07_4143, 0xCB4E_243E, 0xC10C_815D, 0x8375_D54C)
    requires k == Hex4(0x3DE2_3A75, 0x5247_75E7, 0x27BF_9EB4, 0x5407_CF39)
    ensures Round(s, k) == Hex4(0xD653_A469, 0x6CA0_BC0F, 0x5ACA_AB5D, 0xB96C_5E7D)
  {}

  lemma {:induction false} C3Round8(s: State, k: State)
    requires s == Hex4(0xD653_A469, 0x6CA0_BC0F, 0x5ACA_AB5D, 0xB96C_5E7D)
    requires k == Hex4(0x0BDC_905F, 0xC27B_0948, 0xAD52_45A4, 0xC187_1C2F)
    ensures Round(s, k) == Hex4(0x5AA8_5839, 0x5FD2_8D7D, 0x05E1_A388, 0x68F3_B9C5)
  {}

  lemma {:induction false} C3Round9(s: State, k: State)
    requires s == Hex4(0x5AA8_5839, 0x5FD2_8D7D, 0x05E1_A388, 0x68F3_B9C5)
    requires k == Hex4(0x45F5_A660, 0x17B2_D387, 0x300D_4D33, 0x640A_820A)
    ensures Round(s, k) == Hex4(0x4A82_4851, 0xC57E_7E47, 0x643D_E50C, 0x2AF3_E8C9)
  {}

  lemma {:induction false} C3Round10(s: State, k: State)
    requires s == Hex4(0x4A82_4851, 0xC57E_7E47, 0x643D_E50C, 0x2AF3_E8C9)
    requires k == Hex4(0x7CCF_F71C, 0xBEB4_FE54, 0x13E6_BBF0, 0xD261_A7DF)
    ensures Round(s, k) == Hex4(0xC149_07F6, 0xCA3B_3AA0, 0x70E9_AA31, 0x3B52_B5EC)
  {}

  lemma {:induction false} C3Round11(s: State, k: State)
    requires s == Hex4(0xC149_07F6, 0xCA3B_3AA0, 0x70E9_AA31, 0x3B52_B5EC)
    requires k == Hex4(0xF01A_FAFE, 0xE7A8_2979, 0xD7A5_644A, 0xB3AF_E640)
    ensures Round(s, k) == Hex4(0x5F9C_6ABF, 0xBAC6_34AA, 0x5040_9FA7, 0x6667_7653)
  {}

  lemma {:induction false} C3Round12(s: State, k: State)
    requires s == Hex4(0x5F9C_6ABF, 0xBAC6_34AA, 0x5040_9FA7, 0x6667_7653)
    requires k == Hex4(0x2541_FE71, 0x9BF5_0025, 0x8813_BBD5, 0x5A72_1C0A)
    ensures Round(s, k) == Hex4(0x5166_0495, 0x4353_9503, 0x14FB_86E4, 0x0192_2521)
  {}

  lemma {:induction false} C3Round13(s: State, k: State)
    requires s == Hex4(0x5166_0495, 0x4353_9503, 0x14FB_86E4, 0x0192_2521)
    requires k == Hex4(0x4E5A_6699, 0xA9F2_4FE0, 0x7E57_2BAA, 0xCDF8_CDEA)
    ensures Round(s, k) == Hex4(0x627B_CEB9, 0x999D_5AAA, 0xC945_ECF4, 0x23F5_6DA5)
  {}

  lemma {:induction false} C3Round14(s: State, k: State)
    requires s == Hex4(0x627B_CEB9, 0x999D_5AAA, 0xC945_ECF4, 0x23F5_6DA5)
    requires k == Hex4(0x24FC_79CC, 0xBF09_79E9, 0x371A_C23C, 0x6D68_DE36)
    ensures LastRound(s, k) == Hex4(0x8EA2_B7CA, 0x5167_45BF, 0xEAFC_4990, 0x4B49_6089)
  {}

  lemma {:induction false} C3Start(s: State, k: State)
    requires s == Plain()
    requires k == Hex4(0x0001_0203, 0x0405_0607, 0x0809_0A0B, 0x0C0D_0E0F)
    ensures AddRoundKey(s, k) == Hex4(0x0010_2030, 0x4050_6070, 0x8090_A0B0, 0xC0D0_E0F0)
  {}

  /** Section C.3. */
  lemma {:induction false} C3(key: seq<bv8>, plain: seq<bv8>)
    requires key == C3Key()
    requires plain == [0x00, 0x11, 0x22, 0x33, 0x44, 0x55, 0x66, 0x77, 0x88, 0x99, 0xAA, 0xBB, 0xCC, 0xDD, 0xEE, 0xFF]
    ensures Cipher(BytesState(plain), KeyExpansion(key, 8), 14) ==
            BytesState([0x8E, 0xA2, 0xB7, 0xCA, 0x51, 0x67, 0x45, 0xBF, 0xEA, 0xFC, 0x49, 0x90, 0x4B, 0x49, 0x60, 0x89])
  {
    hide Cipher, KeyExpansion, C3Key;
    KeyLength();
    C3Length();
    var cipher := [0x8E, 0xA2, 0xB7, 0xCA, 0x51, 0x67, 0x45, 0xBF, 0xEA, 0xFC, 0x49, 0x90, 0x4B, 0x49, 0x60, 0x89];
    assert BytesState(plain) == Plain();
    C3State(key, Plain());
    assert BytesState(cipher) == Hex4(0x8EA2_B7CA, 0x5167_45BF, 0xEAFC_4990, 0x4B49_6089);
  }

  lemma {:induction false} C3State(key: seq<bv8>, s: State)
    requires key == C3Key() && s == Plain()
    ensures Cipher(s, KeyExpansion(key, 8), 14) == Hex4(0x8EA2_B7CA, 0x5167_45BF, 0xEAFC_4990, 0x4B49_6089)
  {
    hide KeyWord, KeyExpansion, Rounds, Round, LastRound, Cipher, AddRoundKey, RoundKey, Hex, C3Key, Plain;
    KeyLength();
    C3Length();
    var w := KeyExpansion(key, 8);
    ScheduleKey(key, 8, 0);
    C3Row0(key, 0);
    C3Start(s, RoundKey(w, 0));
    FirstRound(s, w);
    ScheduleKey(key, 8, 1);
    NextRound(s, w, 1);
    C3Round1(Rounds(s, w, 0), RoundKey(w, 1));
    C3Row1(key, 8);
    ScheduleKey(key, 8, 2);
    NextRound(s, w, 2);
    C3Round2(Rounds(s, w, 1), RoundKey(w, 2));
    ScheduleKey(key, 8, 3);
    NextRound(s, w, 3);
    C3Round3(Rounds(s, w, 2), RoundKey(w, 3));
    C3Row2(key, 16);
    ScheduleKey(key, 8, 4);
    NextRound(s, w, 4);
    C3Round4(Rounds(s, w, 3), RoundKey(w, 4));
    ScheduleKey(key, 8, 5);
    NextRound(s, w, 5);
    C3Round5(Rounds(s, w, 4), RoundKey(w, 5));
    C3Row3(key, 24);
    ScheduleKey(key, 8, 6);
    NextRound(s, w, 6);
    C3Round6(Rounds(s, w, 5), RoundKey(w, 6));
    ScheduleKey(key, 8, 7);
    NextRound(s, w, 7);
    C3Round7(Rounds(s, w, 6), RoundKey(w, 7));
    C3Row4(key, 32);
    ScheduleKey(key, 8, 8);
    NextRound(s, w, 8);
    C3Round8(Rounds(s, w, 7), RoundKey(w, 8));
    ScheduleKey(key, 8, 9);
    NextRound(s, w, 9);
    C3Round9(Rounds(s, w, 8), RoundKey(w, 9));
    C3Row5(key, 40);
    ScheduleKey(key, 8, 10);
    NextRound(s, w, 10);
    C3Round10(Rounds(s, w, 9), RoundKey(w, 10));
    ScheduleKey(key, 8, 11);
    NextRound(s, w, 11);
    C3Round11(Rounds(s, w, 10), RoundKey(w, 11));
    C3Row6(key, 48);
    ScheduleKey(key, 8, 12);
    NextRound(s, w, 12);
    C3Round12(Rounds(s, w, 11), RoundKey(w, 12));
    ScheduleKey(key, 8, 13);
    NextRound(s, w, 13);
    C3Round13(Rounds(s, w, 12), RoundKey(w, 13));
    C3Row7(key, 56);
    ScheduleKey(key, 8, 14);
    C3Round14(Rounds(s, w, 13), RoundKey(w, 14));
    CipherIs(s, w, 14);
  }

  /** The plaintext of all three examples. */
  function Plain(): State { Hex4(0x0011_2233, 0x4455_6677, 0x8899_AABB, 0xCCDD_EEFF) }
}
