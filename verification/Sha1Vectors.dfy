// The published example "abc" of SHA-1 (section 7.3 of RFC 3174), computed from the definitions the program is proved
// against: every constant, function, rotation and byte order in them enters the digest.
module Sha1Vectors {
  import opened ByteValues
  import opened Sha1Spec

  // --- sixteen steps and sixteen schedule words at a time ---

  /** Steps t to t + 15 with the schedule words l. */
  function Sixteen(h: Hash, t: nat, l: seq<bv32>): Hash
    requires |l| == 16
  {
    var h1 := Step(h, t, l[0]);
    var h2 := Step(h1, t + 1, l[1]);
    var h3 := Step(h2, t + 2, l[2]);
    var h4 := Step(h3, t + 3, l[3]);
    var h5 := Step(h4, t + 4, l[4]);
    var h6 := Step(h5, t + 5, l[5]);
    var h7 := Step(h6, t + 6, l[6]);
    var h8 := Step(h7, t + 7, l[7]);
    var h9 := Step(h8, t + 8, l[8]);
    var h10 := Step(h9, t + 9, l[9]);
    var h11 := Step(h10, t + 10, l[10]);
    var h12 := Step(h11, t + 11, l[11]);
    var h13 := Step(h12, t + 12, l[12]);
    var h14 := Step(h13, t + 13, l[13]);
    var h15 := Step(h14, t + 14, l[14]);
    Step(h15, t + 15, l[15])
  }

  /** The sixteen schedule words that start four words after l. */
  function Four(l: seq<bv32>): (n: seq<bv32>)
    requires |l| == 16
    ensures |n| == 16
  {
    var n0 := Expand(l[13], l[8], l[2], l[0]);
    [l[4], l[5], l[6], l[7], l[8], l[9], l[10], l[11], l[12], l[13], l[14], l[15], n0,
     Expand(l[14], l[9], l[3], l[1]), Expand(l[15], l[10], l[4], l[2]), Expand(n0, l[11], l[5], l[3])]
  }

  /** The sixteen schedule words after l. */
  function Following(l: seq<bv32>): (n: seq<bv32>)
    requires |l| == 16
    ensures |n| == 16
  {
    Four(Four(Four(Four(l))))
  }

  /** The schedule words t to t + 15. */
  ghost predicate Window(words: seq<bv32>, t: nat, l: seq<bv32>)
    requires |words| == 16
  {
    |l| == 16 && forall j | 0 <= j < 16 :: W(words, t + j) == l[j]
  }

  lemma {:induction false} NextWindow(words: seq<bv32>, t: nat, l: seq<bv32>)
    requires |words| == |l| == 16 && Window(words, t, l)
    ensures Window(words, t + 16, Following(l))
  {
    hide Four, Window;
    NextFour(words, t, l);
    NextFour(words, t + 4, Four(l));
    NextFour(words, t + 8, Four(Four(l)));
    NextFour(words, t + 12, Four(Four(Four(l))));
  }

  lemma {:induction false} NextFour(words: seq<bv32>, t: nat, l: seq<bv32>)
    requires |words| == |l| == 16 && Window(words, t, l)
    ensures Window(words, t + 4, Four(l))
  {
    hide Expand, W, Window;
    var n := Four(l);
    assert n[..12] == l[4..];
    Raw(words, t, l);
    WordIs(words, t + 16);
    WordIs(words, t + 17);
    WordIs(words, t + 18);
    WordIs(words, t + 19);
    Shift(words, t, l, n);
  }

  lemma {:induction false} Shift(words: seq<bv32>, t: nat, l: seq<bv32>, n: seq<bv32>)
    requires |words| == |l| == |n| == 16 && Window(words, t, l) && n[..12] == l[4..]
    requires W(words, t + 16) == n[12] && W(words, t + 17) == n[13]
    requires W(words, t + 18) == n[14] && W(words, t + 19) == n[15]
    ensures Window(words, t + 4, n)
  {
    hide W;
    forall j | 0 <= j < 16
      ensures W(words, t + 4 + j) == n[j]
    {
      if j < 12 {
        assert n[j] == n[..12][j] == l[4 + j];
        assert W(words, t + (4 + j)) == l[4 + j];
      }
    }
  }

  lemma {:induction false} Raw(words: seq<bv32>, t: nat, l: seq<bv32>)
    requires |words| == |l| == 16 && Window(words, t, l)
    ensures W(words, t) == l[0] && W(words, t + 1) == l[1] && W(words, t + 2) == l[2] && W(words, t + 3) == l[3]
    ensures W(words, t + 4) == l[4] && W(words, t + 5) == l[5] && W(words, t + 6) == l[6] && W(words, t + 7) == l[7]
    ensures W(words, t + 8) == l[8] && W(words, t + 9) == l[9] && W(words, t + 10) == l[10] && W(words, t + 11) == l[11]
    ensures W(words, t + 12) == l[12] && W(words, t + 13) == l[13] && W(words, t + 14) == l[14] && W(words, t + 15) == l[15]
  {
    hide W;
    assert W(words, t + 0) == l[0];
  }

  lemma {:induction false} WordIs(words: seq<bv32>, t: nat)
    requires |words| == 16 && 16 <= t
    ensures W(words, t) == Expand(W(words, t - 3), W(words, t - 8), W(words, t - 14), W(words, t - 16))
  {
    hide Expand;
  }

  lemma {:induction false} SixteenSteps(h: Hash, words: seq<bv32>, t: nat, l: seq<bv32>)
    requires |words| == 16 && Window(words, t, l)
    ensures Steps(h, words, t + 16) == Sixteen(Steps(h, words, t), t, l)
  {
    hide Step, Steps, W;
    Raw(words, t, l);

    StepIs(h, words, t);
    StepIs(h, words, t + 1);
    StepIs(h, words, t + 2);
    StepIs(h, words, t + 3);
    StepIs(h, words, t + 4);
    StepIs(h, words, t + 5);
    StepIs(h, words, t + 6);
    StepIs(h, words, t + 7);
    StepIs(h, words, t + 8);
    StepIs(h, words, t + 9);
    StepIs(h, words, t + 10);
    StepIs(h, words, t + 11);
    StepIs(h, words, t + 12);
    StepIs(h, words, t + 13);
    StepIs(h, words, t + 14);
    StepIs(h, words, t + 15);
  }

  lemma {:induction false} StepIs(h: Hash, words: seq<bv32>, t: nat)
    requires |words| == 16
    ensures Steps(h, words, t + 1) == Step(Steps(h, words, t), t, W(words, t))
  {
    hide Step, W;
  }

  /** A whole compression, in five rows of sixteen steps. */
  lemma {:induction false} FiveRows(h: Hash, words: seq<bv32>)
    requires |words| == 16
    ensures var (l1, l2) := (Following(words), Following(Following(words)));
            var (l3, l4) := (Following(l2), Following(Following(l2)));
            Steps(h, words, 80) ==
              Sixteen(Sixteen(Sixteen(Sixteen(Sixteen(h, 0, words), 16, l1), 32, l2), 48, l3), 64, l4)
  {
    hide Sixteen, Following, Steps;
    var (l1, l2) := (Following(words), Following(Following(words)));
    var (l3, l4) := (Following(l2), Following(Following(l2)));
    RawWindow(words);
    NextWindow(words, 0, words);
    NextWindow(words, 16, l1);
    NextWindow(words, 32, l2);
    NextWindow(words, 48, l3);
    NoStep(h, words);
    SixteenSteps(h, words, 0, words);
    SixteenSteps(h, words, 16, l1);
    SixteenSteps(h, words, 32, l2);
    SixteenSteps(h, words, 48, l3);
    SixteenSteps(h, words, 64, l4);
  }

  lemma {:induction false} RawWindow(words: seq<bv32>)
    requires |words| == 16
    ensures Window(words, 0, words)
  {}

  lemma {:induction false} NoStep(h: Hash, words: seq<bv32>)
    requires |words| == 16
    ensures Steps(h, words, 0) == h
  {}

  function Fill(n: nat, v: bv8): (z: seq<bv8>)
    ensures |z| == n && forall k | 0 <= k < n :: z[k] == v
  {
    seq(n, _ => v)
  }

  lemma {:induction false} SmallBytes()
    ensures LowByte(0) == 0 && LowByte(24) == 24
  {}

  /** The eight length bytes of a message under 8192 bytes. */
  lemma {:induction false} ShortLength(bits: nat)
    requires bits < 0x1_0000
    ensures LengthBytes(bits) == [0, 0, 0, 0, 0, 0] + [LowByte(bits / 0x100), LowByte(bits % 0x100)]
  {
    hide LowByte;
    SmallBytes();
    LowByteIs(bits);
  }

  lemma {:induction false} LowByteIs(n: nat)
    ensures LowByte(n) == LowByte(n % 256)
  {}

  lemma {:induction false} ShortPad(m: seq<bv8>)
    requires 8 * |m| < 0x1_0000
    ensures Pad(m) == m + [0x80] + Fill(PadZeros(|m|), 0) + [0, 0, 0, 0, 0, 0] +
                      [LowByte(8 * |m| / 0x100), LowByte(8 * |m| % 0x100)]
  {
    hide LowByte, LengthBytes, PadZeros;
    ShortLength(8 * |m|);
    assert Zeros(PadZeros(|m|)) == Fill(PadZeros(|m|), 0);
  }

  // --- SHA-1 of "abc" ---

  /** The padded block of "abc". */
  lemma {:induction false} AbcBlock(h: Hash, b: seq<bv8>)
    requires h == Hash(0x67452301, 0xEFCDAB89, 0x98BADCFE, 0x10325476, 0xC3D2E1F0)
    requires b == [0x61, 0x62, 0x63, 0x80] + Fill(52, 0x00) + [0x00, 0x00, 0x00, 0x00, 0x00, 0x00, 0x00, 0x18]
    ensures Compress(h, b) == Hash(0xA9993E36, 0x4706816A, 0xBA3E2571, 0x7850C26C, 0x9CD0D89D)
  {
    hide Sixteen, Following, Steps, AddHash;
    var l := BlockWords(b);
    AbcBlockWords(b);
    FiveRows(h, l);
    var m, g := AbcBlockStart(h, l);
    AbcBlockRest(h, m, g);
  }

  lemma {:induction false} AbcBlockWords(b: seq<bv8>)
    requires b == [0x61, 0x62, 0x63, 0x80] + Fill(52, 0x00) + [0x00, 0x00, 0x00, 0x00, 0x00, 0x00, 0x00, 0x18]
    ensures BlockWords(b) == [0x61626380, 0x00000000, 0x00000000, 0x00000000, 0x00000000, 0x00000000, 0x00000000,
      0x00000000, 0x00000000, 0x00000000, 0x00000000, 0x00000000, 0x00000000, 0x00000000, 0x00000000, 0x00000018]
  {
    var w := BlockWords(b);
    assert w[0] == 0x61626380 && w[1] == 0x00000000 && w[2] == 0x00000000 && w[3] == 0x00000000;
    assert w[4] == 0x00000000 && w[5] == 0x00000000 && w[6] == 0x00000000 && w[7] == 0x00000000;
    assert w[8] == 0x00000000 && w[9] == 0x00000000 && w[10] == 0x00000000 && w[11] == 0x00000000;
    assert w[12] == 0x00000000 && w[13] == 0x00000000 && w[14] == 0x00000000 && w[15] == 0x00000018;
  }

  lemma {:induction false} AbcBlockStart(h: Hash, l: seq<bv32>) returns (m: seq<bv32>, g: Hash)
    requires h == Hash(0x67452301, 0xEFCDAB89, 0x98BADCFE, 0x10325476, 0xC3D2E1F0)
    requires l == [0x61626380, 0x00000000, 0x00000000, 0x00000000, 0x00000000, 0x00000000, 0x00000000, 0x00000000,
      0x00000000, 0x00000000, 0x00000000, 0x00000000, 0x00000000, 0x00000000, 0x00000000, 0x00000018]
    ensures m == Following(Following(l))
    ensures g == Sixteen(Sixteen(Sixteen(h, 0, l), 16, Following(l)), 32, m)
    ensures m == [0x8E9A9202, 0x00000600, 0xB131C0F0, 0x16263BC6, 0x4EBED41E, 0x626380A1, 0x16263806, 0x000018C0,
      0xD2E138C4, 0x00000F00, 0x3AFB5079, 0x898E04E5, 0xE2BA3C2B, 0x000060C0, 0x053A37CD, 0x74458547]
    ensures g == Hash(0xBEAD02CA, 0xA01B846C, 0x8714787C, 0x503CA382, 0xFB86C6AB)
  {
    var n := Following(l);
    assert n == [0xC2C4C700, 0x00000000, 0x00000030, 0x85898E01, 0x00000000, 0x00000060, 0x0B131C03, 0x00000030,
      0x85898EC1, 0x16263806, 0x00000000, 0x00000180, 0x2C4C700C, 0x000000F0, 0x93AFB507, 0x5898E048];
    m := Following(n);
    assert m == [0x8E9A9202, 0x00000600, 0xB131C0F0, 0x16263BC6, 0x4EBED41E, 0x626380A1, 0x16263806, 0x000018C0,
      0xD2E138C4, 0x00000F00, 0x3AFB5079, 0x898E04E5, 0xE2BA3C2B, 0x000060C0, 0x053A37CD, 0x74458547];
    g := Sixteen(h, 0, l);
    assert g == Hash(0x20BDD62F, 0x196BEE77, 0x644A3DA5, 0x1181ED99, 0x18C623F9);
    g := Sixteen(g, 16, n);
    assert g == Hash(0x3B845D33, 0x1267B407, 0x717EEBD7, 0xA0DC2D4B, 0xD2AA1365);
    g := Sixteen(g, 32, m);
  }

  lemma {:induction false} AbcBlockRest(h: Hash, m: seq<bv32>, g: Hash)
    requires h == Hash(0x67452301, 0xEFCDAB89, 0x98BADCFE, 0x10325476, 0xC3D2E1F0)
    requires g == Hash(0xBEAD02CA, 0xA01B846C, 0x8714787C, 0x503CA382, 0xFB86C6AB)
    requires m == [0x8E9A9202, 0x00000600, 0xB131C0F0, 0x16263BC6, 0x4EBED41E, 0x626380A1, 0x16263806, 0x000018C0,
      0xD2E138C4, 0x00000F00, 0x3AFB5079, 0x898E04E5, 0xE2BA3C2B, 0x000060C0, 0x053A37CD, 0x74458547]
    ensures AddHash(h, Sixteen(Sixteen(g, 48, Following(m)), 64, Following(Following(m)))) ==
            Hash(0xA9993E36, 0x4706816A, 0xBA3E2571, 0x7850C26C, 0x9CD0D89D)
  {
    var n := Following(m);
    assert n == [0xDA9415ED, 0x26380A16, 0x626383A1, 0x4EBF54DE, 0x3835B44B, 0x0000F600, 0x1E84C7A3, 0x98E04D98,
      0x651D16A0, 0x62658CA1, 0x458544D6, 0x44584CB7, 0x7BA06619, 0x6380AEA2, 0x0AE55269, 0x627B49A1];
    var o := Following(n);
    assert o == [0x7CD45C9D, 0x000F0000, 0xFB50753A, 0xEC6765E8, 0xBA3C2BE2, 0x0060C000, 0x3A37CD05, 0x458546F4,
      0xB8599DD6, 0x380A1A26, 0x01E02203, 0xE7CC3456, 0xE6E60B69, 0x00F60A00, 0x5795EF4F, 0x822E0879];
    var g1 := Sixteen(g, 48, n);
    assert g1 == Hash(0x6B61C9E1, 0xB66C020B, 0x9523272C, 0xF5D5B051, 0x8FD4B796);
    var g2 := Sixteen(g1, 64, o);
    assert g2 == Hash(0x42541B35, 0x5738D5E1, 0x21834873, 0x681E6DF6, 0xD8FDF6AD);
  }

  /** Section 7.3 of RFC 3174. */
  lemma {:induction false} Abc()
    ensures Sha1([0x61, 0x62, 0x63]) ==
            [0xA9, 0x99, 0x3E, 0x36, 0x47, 0x06, 0x81, 0x6A, 0xBA, 0x3E, 0x25, 0x71, 0x78, 0x50, 0xC2, 0x6C, 0x9C,
              0xD0, 0xD8, 0x9D]
  {
    hide Compress, LowByte;
    var m: seq<bv8> := [0x61, 0x62, 0x63];
    ShortPad(m);
    SmallBytes();
    var b := [0x61, 0x62, 0x63, 0x80] + Fill(52, 0) + [0, 0, 0, 0, 0, 0, 0, 24];
    assert Pad(m) == b;
    AbcBlock(IV, b);
    OneBlock(m);
    AbcBytes(Compress(IV, b));
  }

  lemma {:induction false} AbcBytes(h: Hash)
    requires h == Hash(0xA9993E36, 0x4706816A, 0xBA3E2571, 0x7850C26C, 0x9CD0D89D)
    ensures HashBytes(h) ==
            [0xA9, 0x99, 0x3E, 0x36, 0x47, 0x06, 0x81, 0x6A, 0xBA, 0x3E, 0x25, 0x71, 0x78, 0x50, 0xC2, 0x6C, 0x9C,
              0xD0, 0xD8, 0x9D]
  {
    assert WordBytes(h.a) == [0xA9, 0x99, 0x3E, 0x36];
    assert WordBytes(h.b) == [0x47, 0x06, 0x81, 0x6A];
    assert WordBytes(h.c) == [0xBA, 0x3E, 0x25, 0x71];
    assert WordBytes(h.d) == [0x78, 0x50, 0xC2, 0x6C];
    assert WordBytes(h.e) == [0x9C, 0xD0, 0xD8, 0x9D];
  }

  lemma {:induction false} NoBlock(h: Hash)
    ensures Absorb(h, []) == h
  {}

  lemma {:induction false} OneBlock(m: seq<bv8>)
    requires |Pad(m)| == 64
    ensures Sha1(m) == HashBytes(Compress(IV, Pad(m)))
  {
    hide Compress, Pad, Absorb;
    AbsorbBlock(IV, [], Pad(m));
    NoBlock(IV);
    assert [] + Pad(m) == Pad(m);
  }
}
