// The software branch of components/utils/ln_aes.c: key schedule, table-driven encryption and decryption.
module Aes {
  import opened AesTables
  import opened Gf256
  import opened Fips197
  import opened AesWords

  // --- specification: key expansion (section 5.2 of FIPS 197) and views of buffers as states ---

  /** Key length in words; the source truncates any size to 16, 24 or 32 bytes. */
  function Nk(keySize: nat): (nk: nat)
    ensures nk in {4, 6, 8} && (4 * nk <= keySize || nk == 4)
    ensures (24 <= keySize ==> 6 <= nk) && (32 <= keySize ==> 8 <= nk)
  {
    if keySize >= 32 then 8 else if keySize >= 24 then 6 else 4
  }

  function Nr(nk: nat): nat { nk + 6 }

  function Rcon(j: nat): bv8
    requires 0 < j
  {
    if j == 1 then 0x01 else Xtime(Rcon(j - 1))
  }

  function KeyWord(key: seq<bv8>, nk: nat, i: nat): Col
    requires 0 < nk && |key| >= 4 * nk
  {
    if i < nk then Col(key[4 * i], key[4 * i + 1], key[4 * i + 2], key[4 * i + 3])
    else
      var temp := KeyWord(key, nk, i - 1);
      AddCol(KeyWord(key, nk, i - nk),
             if i % nk == 0 then AddCol(SubColumn(RotWord(temp)), Col(Rcon(i / nk), 0, 0, 0))
             else if nk > 6 && i % nk == 4 then SubColumn(temp) else temp)
  }

  function KeyExpansion(key: seq<bv8>, nk: nat): seq<Col>
    requires 0 < nk && |key| >= 4 * nk
  {
    seq(4 * (Nr(nk) + 1), i requires 0 <= i => KeyWord(key, nk, i))
  }

  function Cols(ws: seq<bv32>): seq<Col> { seq(|ws|, i requires 0 <= i < |ws| => ToCol(ws[i])) }

  function WordsState(w: seq<bv32>): State
    requires |w| == 4
  {
    State(ToCol(w[0]), ToCol(w[1]), ToCol(w[2]), ToCol(w[3]))
  }

  function BytesState(b: seq<bv8>): State
    requires |b| == 16
  {
    State(Col(b[0], b[1], b[2], b[3]), Col(b[4], b[5], b[6], b[7]),
          Col(b[8], b[9], b[10], b[11]), Col(b[12], b[13], b[14], b[15]))
  }

  function StateBytes(s: State): seq<bv8> {
    [s.c0.b0, s.c0.b1, s.c0.b2, s.c0.b3, s.c1.b0, s.c1.b1, s.c1.b2, s.c1.b3] +
    [s.c2.b0, s.c2.b1, s.c2.b2, s.c2.b3, s.c3.b0, s.c3.b1, s.c3.b2, s.c3.b3]
  }

  lemma {:induction false} StateBytesInverse(b: seq<bv8>)
    requires |b| == 16
    ensures StateBytes(BytesState(b)) == b
  {
    var s := BytesState(b);
    assert [s.c0.b0, s.c0.b1, s.c0.b2, s.c0.b3, s.c1.b0, s.c1.b1, s.c1.b2, s.c1.b3] == b[..8];
    assert [s.c2.b0, s.c2.b1, s.c2.b2, s.c2.b3, s.c3.b0, s.c3.b1, s.c3.b2, s.c3.b3] == b[8..];
  }

  /** Column j after ShiftRows, read off the words before it. */
  function Shifted(w: seq<bv32>, j: nat): Col
    requires |w| == 4 && j < 4
  {
    Col(B0(w[j]), B1(w[(j + 1) % 4]), B2(w[(j + 2) % 4]), B3(w[(j + 3) % 4]))
  }

  function InvShifted(w: seq<bv32>, j: nat): Col
    requires |w| == 4 && j < 4
  {
    Col(B0(w[j]), B1(w[(j + 3) % 4]), B2(w[(j + 2) % 4]), B3(w[(j + 1) % 4]))
  }

  // --- the index tables g_idxe and g_idxd (ln_aes.c:247-259) ---

  function IdxE(k: nat, j: nat): nat
    requires k < 4 && j < 4
  {
    [[0, 1, 2, 3], [1, 2, 3, 0], [2, 3, 0, 1], [3, 0, 1, 2]][k][j]
  }

  function IdxD(k: nat, j: nat): nat
    requires k < 4 && j < 4
  {
    [[0, 1, 2, 3], [3, 0, 1, 2], [2, 3, 0, 1], [1, 2, 3, 0]][k][j]
  }

  lemma {:induction false} IndexTables(k: nat, j: nat)
    requires k < 4 && j < 4
    ensures IdxE(k, j) == (j + k) % 4 && IdxD(k, j) == (j + 4 - k) % 4
  {
    assert k == 0 || k == 1 || k == 2 || k == 3;
    assert j == 0 || j == 1 || j == 2 || j == 3;
  }

  // --- byte and word helpers of the source ---

  method XtimeByte(a: bv8) returns (r: bv8)
    ensures r == Xtime(a)
  {
    var b: bv8 := if a & 0x80 != 0 then 0x1B else 0;
    r := a << 1;
    r := r ^ b;
  }

  /** One word of inv_mix_column; the inner loop over the four bytes is written out. */
  method InvMixWord(a: bv32) returns (b: bv32)
    ensures ToCol(b) == InvMixColumn(ToCol(a))
  {
    hide Add4, Times9, TimesB, TimesD, TimesE, Xtime, Word, ToCol, Mul;
    var c := ToCol(a);
    var d := Col(Add4(Mul(0x0E, c.b0), Mul(0x0B, c.b1), Mul(0x0D, c.b2), Mul(0x09, c.b3)),
                 Add4(Mul(0x0E, c.b1), Mul(0x0B, c.b2), Mul(0x0D, c.b3), Mul(0x09, c.b0)),
                 Add4(Mul(0x0E, c.b2), Mul(0x0B, c.b3), Mul(0x0D, c.b0), Mul(0x09, c.b1)),
                 Add4(Mul(0x0E, c.b3), Mul(0x0B, c.b0), Mul(0x0D, c.b1), Mul(0x09, c.b2)));
    b := Word(d);
    WordCol(d);
    InvMixByLogs(c);
  }

  lemma {:induction false} InvMixByLogs(c: Col)
    ensures InvMixColumn(c) ==
            Col(Add4(Mul(0x0E, c.b0), Mul(0x0B, c.b1), Mul(0x0D, c.b2), Mul(0x09, c.b3)),
                Add4(Mul(0x0E, c.b1), Mul(0x0B, c.b2), Mul(0x0D, c.b3), Mul(0x09, c.b0)),
                Add4(Mul(0x0E, c.b2), Mul(0x0B, c.b3), Mul(0x0D, c.b0), Mul(0x09, c.b1)),
                Add4(Mul(0x0E, c.b3), Mul(0x0B, c.b0), Mul(0x0D, c.b1), Mul(0x09, c.b2)))
  {
    hide Add4, Times9, TimesB, TimesD, TimesE, Mul;
    forall x: bv8
      ensures Mul(0x09, x) == Times9(x) && Mul(0x0B, x) == TimesB(x)
      ensures Mul(0x0D, x) == TimesD(x) && Mul(0x0E, x) == TimesE(x)
    {
      LogMultiples(x);
    }
    forall a: bv8, b: bv8, c: bv8, d: bv8
      ensures Add4(a, b, c, d) == Add4(b, c, d, a)
    {
      Rotate4(a, b, c, d);
    }
  }

  method KeyAddition8To32(txt: array<bv8>, key: array<bv32>, off: nat, out: array<bv32>)
    requires txt.Length >= 16 && off + 4 <= key.Length && out.Length == 4 && key != out
    modifies out
    ensures WordsState(out[..]) == AddRoundKey(BytesState(txt[..16]), WordsState(key[off..off + 4]))
  {
    hide ToCol, Word, XorWord, AddCol;
    for i := 0 to 4
      invariant forall k | 0 <= k < i ::
        ToCol(out[k]) == AddCol(Col(txt[4 * k], txt[4 * k + 1], txt[4 * k + 2], txt[4 * k + 3]), ToCol(key[off + k]))
    {
      var c := Col(txt[4 * i], txt[4 * i + 1], txt[4 * i + 2], txt[4 * i + 3]);
      out[i] := XorWord(key[off + i], Word(c));
      XorWordCol(key[off + i], Word(c));
      WordCol(c);
      AddColComm(ToCol(key[off + i]), c);
    }
  }

  method KeyAddition32(txt: array<bv32>, key: array<bv32>, off: nat, out: array<bv32>)
    requires txt.Length == 4 && off + 4 <= key.Length && out.Length == 4 && key != out && txt != out
    modifies out
    ensures WordsState(out[..]) == AddRoundKey(WordsState(txt[..]), WordsState(key[off..off + 4]))
  {
    hide ToCol, XorWord, AddCol;
    for i := 0 to 4
      invariant forall k | 0 <= k < i :: ToCol(out[k]) == AddCol(ToCol(txt[k]), ToCol(key[off + k]))
    {
      out[i] := XorWord(key[off + i], txt[i]);
      XorWordCol(key[off + i], txt[i]);
      AddColComm(ToCol(key[off + i]), ToCol(txt[i]));
    }
  }

  method PutWord(out: array<bv8>, at: nat, val: bv32)
    requires at + 4 <= out.Length
    modifies out
    ensures out[at] == B0(val) && out[at + 1] == B1(val) && out[at + 2] == B2(val) && out[at + 3] == B3(val)
    ensures forall k | 0 <= k < out.Length && !(at <= k < at + 4) :: out[k] == old(out[k])
  {
    hide B0, B1, B2, B3;
    out[at], out[at + 1], out[at + 2], out[at + 3] := B0(val), B1(val), B2(val), B3(val);
  }

  method KeyAddition32To8(txt: array<bv32>, key: array<bv32>, off: nat, out: array<bv8>)
    requires txt.Length == 4 && off + 4 <= key.Length && out.Length >= 16
    modifies out
    ensures BytesState(out[..16]) == AddRoundKey(WordsState(txt[..]), WordsState(key[off..off + 4]))
    ensures out[16..] == old(out[16..])
  {
    hide B0, B1, B2, B3, XorWord, AddCol;
    for i := 0 to 4
      invariant forall k | 0 <= k < i ::
        Col(out[4 * k], out[4 * k + 1], out[4 * k + 2], out[4 * k + 3]) == AddCol(ToCol(txt[k]), ToCol(key[off + k]))
      invariant out[16..] == old(out[16..])
    {
      var val := XorWord(txt[i], key[off + i]);
      PutWord(out, 4 * i, val);
      XorWordCol(txt[i], key[off + i]);
    }
  }

  method SubBytesLoop(t: array<bv32>)
    requires t.Length == 4
    modifies t
    ensures forall k | 0 <= k < 4 :: ToCol(t[k]) == SubColumn(old(ToCol(t[k])))
  {
    hide SubByte, SubColumn, ToCol;
    for j := 0 to 4
      invariant forall k | 0 <= k < 4 :: ToCol(t[k]) == if k < j then SubColumn(old(ToCol(t[k]))) else old(ToCol(t[k]))
    {
      SubByteCol(t[j]);
      t[j] := SubByte(t[j]);
    }
  }

  method InvSubBytesLoop(t: array<bv32>)
    requires t.Length == 4
    modifies t
    ensures forall k | 0 <= k < 4 :: ToCol(t[k]) == InvSubColumn(old(ToCol(t[k])))
  {
    hide InvSubByte, InvSubColumn, ToCol;
    for j := 0 to 4
      invariant forall k | 0 <= k < 4 ::
        ToCol(t[k]) == if k < j then InvSubColumn(old(ToCol(t[k]))) else old(ToCol(t[k]))
    {
      InvSubByteCol(t[j]);
      t[j] := InvSubByte(t[j]);
    }
  }

  // --- one round of each direction ---

  method EncryptTables(wtxt: array<bv32>, t: array<bv32>)
    requires wtxt.Length == 4 && t.Length == 4 && wtxt != t
    modifies t
    ensures WordsState(t[..]) == MixColumns(ShiftRows(SubBytes(WordsState(wtxt[..]))))
  {
    hide IdxE, EncTable, MixColumn, SubColumn, Combine, B0, B1, B2, B3;
    ghost var w := wtxt[..];
    for j := 0 to 4
      invariant wtxt[..] == w
      invariant forall k | 0 <= k < j :: ToCol(t[k]) == MixColumn(SubColumn(Shifted(w, k)))
    {
      IndexTables(1, j);
      IndexTables(2, j);
      IndexTables(3, j);
      t[j] := Combine(EncTable(B0(wtxt[j])), EncTable(B1(wtxt[IdxE(1, j)])),
                      EncTable(B2(wtxt[IdxE(2, j)])), EncTable(B3(wtxt[IdxE(3, j)])));
      ghost var c := Shifted(w, j);
      EncColumnIsRound(c.b0, c.b1, c.b2, c.b3);
    }
    RoundColumns(w, t[..]);
  }

  lemma {:induction false} RoundColumns(w: seq<bv32>, t: seq<bv32>)
    requires |w| == |t| == 4
    requires forall k | 0 <= k < 4 :: ToCol(t[k]) == MixColumn(SubColumn(Shifted(w, k)))
    ensures WordsState(t) == MixColumns(ShiftRows(SubBytes(WordsState(w))))
  {
    hide B0, B1, B2, B3, MixColumn, Sbox;
  }

  method DecryptTables(wtxt: array<bv32>, t: array<bv32>)
    requires wtxt.Length == 4 && t.Length == 4 && wtxt != t
    modifies t
    ensures WordsState(t[..]) == InvMixColumns(InvSubBytes(InvShiftRows(WordsState(wtxt[..]))))
  {
    hide IdxD, DecTable, InvMixColumn, InvSubColumn, Combine, B0, B1, B2, B3;
    ghost var w := wtxt[..];
    for j := 0 to 4
      invariant wtxt[..] == w
      invariant forall k | 0 <= k < j :: ToCol(t[k]) == InvMixColumn(InvSubColumn(InvShifted(w, k)))
    {
      IndexTables(1, j);
      IndexTables(2, j);
      IndexTables(3, j);
      t[j] := Combine(DecTable(B0(wtxt[j])), DecTable(B1(wtxt[IdxD(1, j)])),
                      DecTable(B2(wtxt[IdxD(2, j)])), DecTable(B3(wtxt[IdxD(3, j)])));
      ghost var c := InvShifted(w, j);
      DecColumnIsRound(c.b0, c.b1, c.b2, c.b3);
    }
    InvRoundColumns(w, t[..]);
  }

  lemma {:induction false} InvRoundColumns(w: seq<bv32>, t: seq<bv32>)
    requires |w| == |t| == 4
    requires forall k | 0 <= k < 4 :: ToCol(t[k]) == InvMixColumn(InvSubColumn(InvShifted(w, k)))
    ensures WordsState(t) == InvMixColumns(InvSubBytes(InvShiftRows(WordsState(w))))
  {
    hide B0, B1, B2, B3, InvMixColumn, InvSbox;
  }

  /** The last round has no mixing. */
  method EncryptLast(wtxt: array<bv32>, t: array<bv32>)
    requires wtxt.Length == 4 && t.Length == 4 && wtxt != t
    modifies t
    ensures WordsState(t[..]) == ShiftRows(SubBytes(WordsState(wtxt[..])))
  {
    hide IdxE, Gather, SubByte, SubColumn, B0, B1, B2, B3;
    ghost var w := wtxt[..];
    for j := 0 to 4
      invariant wtxt[..] == w
      invariant forall k | 0 <= k < j :: ToCol(t[k]) == Shifted(w, k)
    {
      IndexTables(1, j);
      IndexTables(2, j);
      IndexTables(3, j);
      t[j] := Gather(wtxt[j], wtxt[IdxE(1, j)], wtxt[IdxE(2, j)], wtxt[IdxE(3, j)]);
      GatherCol(wtxt[j], wtxt[IdxE(1, j)], wtxt[IdxE(2, j)], wtxt[IdxE(3, j)]);
    }
    SubBytesLoop(t);
    LastColumns(w, t[..]);
  }

  lemma {:induction false} LastColumns(w: seq<bv32>, t: seq<bv32>)
    requires |w| == |t| == 4
    requires forall k | 0 <= k < 4 :: ToCol(t[k]) == SubColumn(Shifted(w, k))
    ensures WordsState(t) == ShiftRows(SubBytes(WordsState(w)))
  {
    hide B0, B1, B2, B3, Sbox;
  }

  method DecryptLast(wtxt: array<bv32>, t: array<bv32>)
    requires wtxt.Length == 4 && t.Length == 4 && wtxt != t
    modifies t
    ensures WordsState(t[..]) == InvSubBytes(InvShiftRows(WordsState(wtxt[..])))
  {
    hide IdxD, Gather, InvSubByte, InvSubColumn, B0, B1, B2, B3;
    ghost var w := wtxt[..];
    for j := 0 to 4
      invariant wtxt[..] == w
      invariant forall k | 0 <= k < j :: ToCol(t[k]) == InvShifted(w, k)
    {
      IndexTables(1, j);
      IndexTables(2, j);
      IndexTables(3, j);
      t[j] := Gather(wtxt[j], wtxt[IdxD(1, j)], wtxt[IdxD(2, j)], wtxt[IdxD(3, j)]);
      GatherCol(wtxt[j], wtxt[IdxD(1, j)], wtxt[IdxD(2, j)], wtxt[IdxD(3, j)]);
    }
    InvSubBytesLoop(t);
    InvLastColumns(w, t[..]);
  }

  lemma {:induction false} InvLastColumns(w: seq<bv32>, t: seq<bv32>)
    requires |w| == |t| == 4
    requires forall k | 0 <= k < 4 :: ToCol(t[k]) == InvSubColumn(InvShifted(w, k))
    ensures WordsState(t) == InvSubBytes(InvShiftRows(WordsState(w)))
  {
    hide B0, B1, B2, B3, InvSbox;
  }

  // --- the key schedule, one word at a time ---

  lemma {:induction false} RconStart()
    ensures Rcon(1) == 1
  {}

  lemma {:induction false} RconNext(j: nat)
    requires 0 < j
    ensures Rcon(j + 1) == Xtime(Rcon(j))
  {
    hide Xtime;
  }

  lemma {:induction false} NextQuotient(i: nat, nk: nat)
    requires nk in {4, 6, 8} && nk <= i
    ensures i % nk == 0 ==> i / nk == (i - 1) / nk + 1
    ensures i % nk != 0 ==> i / nk == (i - 1) / nk
  {
    if nk == 4 {
    } else if nk == 6 {
    } else {
    }
  }

  function KeyTemp(prev: bv32, nk: nat, i: nat, rcon: bv8): bv32
    requires 0 < nk
  {
    if i % nk == 0 then XorRcon(SubByte(RotByte(prev)), rcon)
    else if nk > 6 && i % nk == 4 then SubByte(prev) else prev
  }

  lemma {:induction false} KeyStep(key: seq<bv8>, nk: nat, i: nat, prev: bv32, back: bv32, rcon: bv8)
    requires 0 < nk <= i && |key| >= 4 * nk && (i % nk == 0 ==> 0 < i / nk && rcon == Rcon(i / nk))
    requires ToCol(prev) == KeyWord(key, nk, i - 1) && ToCol(back) == KeyWord(key, nk, i - nk)
    ensures ToCol(XorWord(back, KeyTemp(prev, nk, i, rcon))) == KeyWord(key, nk, i)
  {
    hide ToCol, Rcon, SubByte, RotByte, XorRcon, AddCol, SubColumn, RotWord, XorWord;
    XorWordCol(back, KeyTemp(prev, nk, i, rcon));
    XorRconCol(SubByte(RotByte(prev)), rcon);
    SubByteCol(RotByte(prev));
    RotByteCol(prev);
    SubByteCol(prev);
  }

  lemma {:induction false} ScheduleInverted(ks: seq<bv32>, iks: seq<bv32>, nr: nat)
    requires 0 < nr && |ks| == |iks| == 4 * nr + 4
    requires forall k | 0 <= k < 4 * nr + 4 ::
      ToCol(iks[k]) == if 4 <= k < 4 * nr then InvMixColumn(ToCol(ks[k])) else ToCol(ks[k])
    ensures InverseSchedule(Cols(ks), Cols(iks), nr)
  {
    hide ToCol, InvMixColumn;
    var (w, dw) := (Cols(ks), Cols(iks));
    forall r | 0 < r < nr
      ensures RoundKey(dw, r) == InvMixColumns(RoundKey(w, r))
    {
      assert forall k | 4 * r <= k < 4 * r + 4 :: dw[k] == InvMixColumn(w[k]);
    }
  }

  lemma {:induction false} RoundKeyWords(ks: seq<bv32>, nr: nat, r: nat)
    requires r <= nr && 4 * nr + 4 <= |ks|
    ensures RoundKey(Cols(ks[..4 * nr + 4]), r) == WordsState(ks[4 * r..4 * r + 4])
  {
    hide ToCol;
  }

  /** ln_aes_context_t with the three public operations. */
  class AesContext {
    const keys: array<bv32>
    const ikeys: array<bv32>
    var nrounds: nat

    ghost predicate Valid() { keys.Length == 60 && ikeys.Length == 60 && keys != ikeys }

    /** The key schedule and its inverse are in place. */
    ghost predicate Ready()
      reads this, keys, ikeys
    {
      Valid() && 0 < nrounds <= 14 && InverseSchedule(Schedule(), InvSchedule(), nrounds)
    }

    ghost function Schedule(): (w: seq<Col>)
      requires Valid() && nrounds <= 14
      reads this, keys
      ensures |w| == 4 * nrounds + 4
    {
      Cols(keys[..4 * nrounds + 4])
    }

    ghost function InvSchedule(): (w: seq<Col>)
      requires Valid() && nrounds <= 14
      reads this, ikeys
      ensures |w| == 4 * nrounds + 4
    {
      Cols(ikeys[..4 * nrounds + 4])
    }

    constructor ()
      ensures Valid() && fresh(keys) && fresh(ikeys)
    {
      keys := new bv32[60];
      ikeys := new bv32[60];
    }

    method LoadKey(nk: nat, key: seq<bv8>)
      requires Valid() && nk in {4, 6, 8} && |key| >= 4 * nk
      modifies keys
      ensures forall k | 0 <= k < nk :: ToCol(keys[k]) == KeyWord(key, nk, k)
    {
      hide ToCol, JoinBytes;
      for i := 0 to nk
        invariant forall k | 0 <= k < i :: ToCol(keys[k]) == KeyWord(key, nk, k)
      {
        keys[i] := JoinBytes(key[4 * i], key[4 * i + 1], key[4 * i + 2], key[4 * i + 3]);
        JoinBytesCol(key[4 * i], key[4 * i + 1], key[4 * i + 2], key[4 * i + 3]);
      }
    }

    method ExpandKey(nk: nat, lastKey: nat, key: seq<bv8>)
      requires Valid() && nk in {4, 6, 8} && lastKey == 4 * (Nr(nk) + 1) && |key| >= 4 * nk
      modifies keys
      ensures forall k | 0 <= k < lastKey :: ToCol(keys[k]) == KeyWord(key, nk, k)
    {
      hide ToCol, Rcon, KeyWord, SubByte, RotByte, XorRcon, Xtime, XorWord;
      LoadKey(nk, key);
      var rcon: bv8 := 1;
      RconStart();
      for i := nk to lastKey
        invariant forall k | 0 <= k < i :: ToCol(keys[k]) == KeyWord(key, nk, k)
        invariant rcon == Rcon((i - 1) / nk + 1)
      {
        var temp := keys[i - 1];
        NextQuotient(i, nk);
        KeyStep(key, nk, i, keys[i - 1], keys[i - nk], rcon);
        if i % nk == 0 {
          temp := XorRcon(SubByte(RotByte(temp)), rcon);
          RconNext(i / nk);
          rcon := XtimeByte(rcon);
        } else if nk > 6 && i % nk == 4 {
          temp := SubByte(temp);
        }
        keys[i] := XorWord(keys[i - nk], temp);
      }
    }

    /** inv_mix_column from &keys[i] to &ikeys[i]. */
    method InvMixColumnWords(i: nat)
      requires Valid() && i + 4 <= 60
      modifies ikeys
      ensures forall k | 0 <= k < 60 ::
        if i <= k < i + 4 then ToCol(ikeys[k]) == InvMixColumn(ToCol(keys[k])) else ikeys[k] == old(ikeys[k])
    {
      hide InvMixColumn, ToCol;
      for j := 0 to 4
        invariant forall k | 0 <= k < 60 ::
          if i <= k < i + j then ToCol(ikeys[k]) == InvMixColumn(ToCol(keys[k])) else ikeys[k] == old(ikeys[k])
      {
        var b := InvMixWord(keys[i + j]);
        ikeys[i + j] := b;
      }
    }

    method InvertKeys(nr: nat)
      requires Valid() && 10 <= nr <= 14
      modifies ikeys
      ensures forall k | 0 <= k < 4 * nr + 4 ::
        ToCol(ikeys[k]) == if 4 <= k < 4 * nr then InvMixColumn(ToCol(keys[k])) else ToCol(keys[k])
    {
      hide ToCol, InvMixColumn;
      var lastKey := 4 * (nr + 1);
      for i := 0 to 4
        invariant forall k | 0 <= k < i :: ikeys[k] == keys[k]
        invariant forall k | lastKey - 4 <= k < lastKey - 4 + i :: ikeys[k] == keys[k]
      {
        ikeys[i] := keys[i];
        ikeys[lastKey - 4 + i] := keys[lastKey - 4 + i];
      }
      for r := 1 to nr
        invariant forall k | 0 <= k < 4 :: ikeys[k] == keys[k]
        invariant forall k | lastKey - 4 <= k < lastKey :: ikeys[k] == keys[k]
        invariant forall k | 4 <= k < 4 * r :: ToCol(ikeys[k]) == InvMixColumn(ToCol(keys[k]))
      {
        InvMixColumnWords(4 * r);
      }
    }

    method Setup(keySize: nat, key: seq<bv8>)
      requires Valid() && |key| >= 4 * Nk(keySize)
      modifies this, keys, ikeys
      ensures Ready() && nrounds == Nr(Nk(keySize))
      ensures Schedule() == KeyExpansion(key, Nk(keySize))
    {
      hide ToCol, KeyWord, InvMixColumn;
      var nk, nr;
      if keySize >= 32 {
        nk, nr := 8, 14;
      } else if keySize >= 24 {
        nk, nr := 6, 12;
      } else {
        nk, nr := 4, 10;
      }
      nrounds := nr;
      ExpandKey(nk, 4 * (nr + 1), key);
      InvertKeys(nr);
      ScheduleInverted(keys[..4 * nr + 4], ikeys[..4 * nr + 4], nr);
    }

    /** The two buffers may be the same array. */
    method Encrypt(plaintext: array<bv8>, ciphertext: array<bv8>)
      requires Ready() && plaintext.Length >= 16 && ciphertext.Length >= 16
      modifies ciphertext
      ensures BytesState(ciphertext[..16]) == Cipher(BytesState(old(plaintext[..16])), Schedule(), nrounds)
      ensures ciphertext[16..] == old(ciphertext[16..])
    {
      hide WordsState, BytesState, AddRoundKey, MixColumns, SubBytes, ShiftRows, RoundKey, InverseSchedule, Cols;
      ghost var s, w := BytesState(plaintext[..16]), Schedule();
      var wtxt, t := new bv32[4], new bv32[4];
      RoundKeyWords(keys[..], nrounds, 0);
      KeyAddition8To32(plaintext, keys, 0, wtxt);
      for r := 1 to nrounds
        invariant ciphertext[..] == old(ciphertext[..])
        invariant WordsState(wtxt[..]) == Rounds(s, w, r - 1)
      {
        EncryptTables(wtxt, t);
        RoundKeyWords(keys[..], nrounds, r);
        KeyAddition32(t, keys, 4 * r, wtxt);
      }
      EncryptLast(wtxt, t);
      RoundKeyWords(keys[..], nrounds, nrounds);
      KeyAddition32To8(t, keys, 4 * nrounds, ciphertext);
    }

    /** The two buffers may be the same array. */
    method Decrypt(ciphertext: array<bv8>, plaintext: array<bv8>)
      requires Ready() && plaintext.Length >= 16 && ciphertext.Length >= 16
      modifies plaintext
      ensures BytesState(plaintext[..16]) == EqInvCipher(BytesState(old(ciphertext[..16])), InvSchedule(), nrounds)
      ensures plaintext[16..] == old(plaintext[16..])
    {
      hide WordsState, BytesState, AddRoundKey, InvMixColumns, InvSubBytes, InvShiftRows, RoundKey, InverseSchedule, Cols;
      ghost var s, dw := BytesState(ciphertext[..16]), InvSchedule();
      var wtxt, t := new bv32[4], new bv32[4];
      RoundKeyWords(ikeys[..], nrounds, nrounds);
      KeyAddition8To32(ciphertext, ikeys, 4 * nrounds, wtxt);
      for r := nrounds downto 1
        invariant plaintext[..] == old(plaintext[..])
        invariant WordsState(wtxt[..]) == InvRounds(s, dw, nrounds, r)
      {
        DecryptTables(wtxt, t);
        RoundKeyWords(ikeys[..], nrounds, r);
        KeyAddition32(t, ikeys, 4 * r, wtxt);
      }
      DecryptLast(wtxt, t);
      RoundKeyWords(ikeys[..], nrounds, 0);
      KeyAddition32To8(t, ikeys, 0, plaintext);
    }
  }

  /**
   * For every accepted key: encryption is the FIPS 197 cipher under the expanded key, decryption returns
   * the block given to encryption, and encryption returns the block given to decryption.
   */
  method RoundTrip(keySize: nat, key: seq<bv8>, block: seq<bv8>) returns (there: seq<bv8>, back: seq<bv8>, again: seq<bv8>)
    requires |key| >= 4 * Nk(keySize) && |block| == 16
    ensures |there| == 16
    ensures BytesState(there) == Cipher(BytesState(block), KeyExpansion(key, Nk(keySize)), Nr(Nk(keySize)))
    ensures back == block && again == block
  {
    hide BytesState, StateBytes, Cipher, EqInvCipher, InverseSchedule, KeyExpansion, Cols, Nk, Nr;
    var ctx := new AesContext();
    ctx.Setup(keySize, key);
    ghost var w, dw, nr := ctx.Schedule(), ctx.InvSchedule(), ctx.nrounds;
    assert InverseSchedule(w, dw, nr);
    var buf := new bv8[16](i requires 0 <= i < 16 => block[i]);
    assert buf[..16] == block;
    StateBytesInverse(block);
    ctx.Encrypt(buf, buf);
    there := buf[..16];
    ctx.Decrypt(buf, buf);
    back := buf[..16];
    DecryptEncrypt(BytesState(block), w, dw, nr);
    StateBytesInverse(back);
    ctx.Decrypt(buf, buf);
    ctx.Encrypt(buf, buf);
    again := buf[..16];
    EncryptDecrypt(BytesState(block), w, dw, nr);
    StateBytesInverse(again);
  }
}
