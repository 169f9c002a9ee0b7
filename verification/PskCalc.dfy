// components/utils/ln_psk_calc.c: PBKDF2 with HMAC-SHA-1, and the 64-digit passphrase form.
module PskCalc {
  import opened ByteValues
  import opened Sha1Spec
  import opened Sha1Stream
  import opened Hmac

  // --- PBKDF2 (section 5.2 of RFC 8018) ---

  function XorSeq(a: seq<bv8>, b: seq<bv8>): (r: seq<bv8>)
    requires |a| == |b|
    ensures |r| == |a|
  {
    seq(|a|, i requires 0 <= i < |a| => XorByte(a[i], b[i]))
  }

  function Int(i: nat): seq<bv8> { [LowByte(i / 0x100_0000), LowByte(i / 0x1_0000), LowByte(i / 0x100), LowByte(i)] }

  /** U_j for block index i. */
  function U(p: seq<bv8>, s: seq<bv8>, i: nat, j: nat): (u: seq<bv8>)
    ensures |u| == 20
  {
    if j <= 1 then HmacSha1(p, s + Int(i)) else HmacSha1(p, U(p, s, i, j - 1))
  }

  /** T_i = U_1 xor ... xor U_c. */
  function T(p: seq<bv8>, s: seq<bv8>, c: nat, i: nat): (t: seq<bv8>)
    ensures |t| == 20
  {
    if c <= 1 then U(p, s, i, 1) else XorSeq(T(p, s, c - 1, i), U(p, s, i, c))
  }

  /** The first value of the two digests, with the block index written out. */
  lemma {:induction false} BlockIndices(p: seq<bv8>, s: seq<bv8>)
    ensures U(p, s, 1, 1) == HmacSha1(p, s + [0, 0, 0, 1]) && U(p, s, 2, 1) == HmacSha1(p, s + [0, 0, 0, 2])
  {
    hide HmacSha1;
    IntSpelled([0, 0, 0, 1]);
    IntSpelled([0, 0, 0, 2]);
    SmallNumbers();
  }

  lemma {:induction false} SmallNumbers()
    ensures Spelled([0, 0, 0, 1]) == 1 && Spelled([0, 0, 0, 2]) == 2
  {
    hide Spelled;
    NoBytes();
    SmallValues();
    SpelledMore([], 0);
    SpelledMore([0], 0);
    SpelledMore([0, 0], 0);
    SpelledMore([0, 0, 0], 1);
    SpelledMore([0, 0, 0], 2);
    assert [] + [0 as bv8] == [0] && [0 as bv8] + [0] == [0, 0] && [0 as bv8, 0] + [0] == [0, 0, 0];
    assert [0 as bv8, 0, 0] + [1] == [0, 0, 0, 1] && [0 as bv8, 0, 0] + [2] == [0, 0, 0, 2];
  }

  lemma {:induction false} SmallValues()
    ensures Value(0) == 0 && Value(1) == 1 && Value(2) == 2
  {}

  /** INT(i) is most significant byte first: any four bytes are those of the number they spell. */
  lemma {:induction false} IntSpelled(b: seq<bv8>)
    requires |b| == 4
    ensures Int(Spelled(b)) == b
  {
    hide LowByte, Spelled;
    SpelledFour(b);
  }

  /** The values and the sum of section 5.2, byte by byte. */
  lemma {:induction false} NextValues(p: seq<bv8>, s: seq<bv8>, i: nat, c: nat)
    requires 1 <= c
    ensures T(p, s, 1, i) == U(p, s, i, 1) && U(p, s, i, c + 1) == HmacSha1(p, U(p, s, i, c))
    ensures forall j | 0 <= j < 20 :: T(p, s, c + 1, i)[j] == T(p, s, c, i)[j] ^ U(p, s, i, c + 1)[j]
  {
    hide HmacSha1;
  }

  predicate Printable(p: seq<bv8>) { forall k | 0 <= k < |p| :: 32 <= p[k] <= 126 }

  method CheckPrintable(key: seq<bv8>) returns (ok: bool)
    ensures ok == Printable(key)
  {
    for i := 0 to |key|
      invariant Printable(key[..i])
    {
      if key[i] < 32 {
        return false;
      } else if key[i] > 126 {
        return false;
      }
    }
    return true;
  }

  /** digest[j] ^= u[j], where the buffer is a ++ d ++ c and digest points at d. */
  method XorInto(digest: array<bv8>, u: seq<bv8>, ghost a: seq<bv8>, ghost d: seq<bv8>, ghost c: seq<bv8>, at: nat)
    requires digest[..] == a + d + c && |a| == at && |d| == |u|
    modifies digest
    ensures digest[..] == a + XorSeq(d, u) + c
  {
    hide XorByte;
    for j := 0 to |u|
      invariant digest[..] == a + XorSeq(d, u)[..j] + d[j..] + c
    {
      digest[at + j] := XorByte(digest[at + j], u[j]);
    }
  }

  /** U_1 = PRF(P, S || INT(i)) through the 36-byte buffer tmp1. */
  method FirstU(key: seq<bv8>, data: seq<bv8>, count: nat, tmp1: array<bv8>, tmp2: array<bv8>)
    requires |key| < 256 && |data| <= 32 && count < TWO32
    requires tmp1 != tmp2 && tmp1.Length == 36 && tmp2.Length == 20
    modifies tmp1, tmp2
    ensures tmp2[..] == U(key, data, count, 1)
  {
    hide HmacSha1, LowByte;
    Copy(tmp1, 0, data + Int(count));
    assert tmp1[..|data| + 4] == data + Int(count);
    HmacSha1Into(key, tmp1[..|data| + 4], tmp2);
    assert tmp2[..] == tmp2[..20];
  }

  /** U_n = PRF(P, U_n-1); tmp1 is copied back over tmp2. */
  method NextU(key: seq<bv8>, ghost data: seq<bv8>, ghost count: nat, ghost n: nat, tmp1: array<bv8>, tmp2: array<bv8>)
    requires |key| < 256 && 1 <= n && tmp1 != tmp2 && tmp1.Length == 36 && tmp2.Length == 20
    requires tmp2[..] == U(key, data, count, n)
    modifies tmp1, tmp2
    ensures tmp1[..20] == tmp2[..] == U(key, data, count, n + 1)
  {
    hide HmacSha1, LowByte;
    HmacSha1Into(key, tmp2[..], tmp1);
    Copy(tmp2, 0, tmp1[..20]);
  }

  /**
   * A count of 0 means one iteration, like 1. Above 65535 the source's 16-bit loop counter never reaches the count.
   * A refused key needs no room for a digest.
   */
  method Pbkdf2F(key: seq<bv8>, data: seq<bv8>, iterations: nat, count: nat, digest: array<bv8>, at: nat)
    returns (ok: bool)
    requires |key| < 256 && |data| <= 32 && iterations <= 0xFFFF && count < TWO32
    requires Printable(key) ==> at + 20 <= digest.Length
    modifies digest
    ensures ok == Printable(key)
    ensures digest[..] ==
            if ok then old(digest[..at]) + T(key, data, iterations, count) + old(digest[at + 20..]) else old(digest[..])
  {
    hide U, XorSeq;
    ok := CheckPrintable(key);
    if !ok {
      return;
    }
    ghost var a, c := digest[..at], digest[at + 20..];
    var tmp1, tmp2 := new bv8[36], new bv8[20];
    FirstU(key, data, count, tmp1, tmp2);
    Copy(digest, at, tmp2[..]);
    var i := 1;
    assert digest[..] == a + T(key, data, i, count) + c;
    while i < iterations
      invariant 1 <= i && (1 <= iterations ==> i <= iterations) && (iterations == 0 ==> i == 1)
      invariant tmp2[..] == U(key, data, count, i)
      invariant digest[..] == a + T(key, data, i, count) + c
    {
      NextU(key, data, count, i, tmp1, tmp2);
      XorInto(digest, tmp1[..20], a, T(key, data, i, count), c, at);
      i := i + 1;
    }
  }

  // --- the passphrase or the 64 digits ---

  /** char_2_hex, with the 8-bit wrap of its result. */
  function CharToHex(v: bv8): bv8 {
    if v <= 57 then v - 48 else if v >= 96 then v - 97 + 10 else v - 65 + 10
  }

  /** The ASCII digit for a four-bit value, lower case or upper case. */
  function HexDigit(n: bv8, upper: bool): bv8
    requires n < 16
  {
    if n < 10 then n + 48 else if upper then n - 10 + 65 else n - 10 + 97
  }

  function HexByte(hi: bv8, lo: bv8): bv8 { CharToHex(hi) * 16 + CharToHex(lo) }

  function HighDigit(b: bv8, upper: bool): bv8 { HexDigit(b >> 4, upper) }

  function LowDigit(b: bv8, upper: bool): bv8 { HexDigit(b & 15, upper) }

  /** Every character, hexadecimal digit or not: the offsets of '0', of 'a' less ten and of 'A' less ten. */
  lemma {:induction false} CharacterOffsets(v: bv8)
    ensures CharToHex(v) + (if v <= 0x39 then 0x30 else if v >= 0x60 then 0x57 else 0x37) == v
  {}

  lemma {:induction false} HexByteRoundTrip(b: bv8, u: bool, v: bool)
    ensures HexByte(HighDigit(b, u), LowDigit(b, v)) == b
  {}

  /** The length the program sees: strlen kept in eight bits. */
  function Length8(s: seq<bv8>): nat { |s| % 256 }

  function HexKey(pwd: seq<bv8>): (k: seq<bv8>)
    requires |pwd| >= 64
    ensures |k| == 32
  {
    seq(32, i requires 0 <= i < 32 => HexByte(pwd[2 * i], pwd[2 * i + 1]))
  }

  /** Any spelling of 32 bytes in hexadecimal digits, of either case, decodes to those bytes. */
  lemma {:induction false} HexKeyDecodes(psk: seq<bv8>, pwd: seq<bv8>, upper: seq<(bool, bool)>)
    requires |psk| == |upper| == 32 && |pwd| == 64
    requires forall i | 0 <= i < 32 ::
      pwd[2 * i] == HighDigit(psk[i], upper[i].0) && pwd[2 * i + 1] == LowDigit(psk[i], upper[i].1)
    ensures HexKey(pwd) == psk
  {
    hide HexByte, HighDigit, LowDigit;
    forall i | 0 <= i < 32
      ensures HexKey(pwd)[i] == psk[i]
    {
      HexByteRoundTrip(psk[i], upper[i].0, upper[i].1);
    }
  }

  /** The part of a string the program sees. */
  function Seen(s: seq<bv8>): (t: seq<bv8>)
    ensures |s| < 256 ==> t == s
  {
    s[..Length8(s)]
  }

  /** The checks of pbkdf2_sha1 on a passphrase. */
  predicate Derives(ssid: seq<bv8>, pwd: seq<bv8>) {
    Length8(pwd) < 64 && Length8(ssid) <= 32 && Printable(Seen(pwd))
  }

  /** The two digests of the passphrase form, 40 bytes. */
  function Digests(ssid: seq<bv8>, pwd: seq<bv8>): (d: seq<bv8>)
    ensures |d| == 40
  {
    T(Seen(pwd), Seen(ssid), 4096, 1) + T(Seen(pwd), Seen(ssid), 4096, 2)
  }

  /** A buffer of the size given is enough, except that two whole digests need 40 bytes. */
  predicate Fits(ssid: seq<bv8>, pwd: seq<bv8>, size: nat, length: nat) {
    size <= length && (size >= 32 && Derives(ssid, pwd) ==> 40 <= length)
  }

  /** What the key buffer holds after a call. */
  function PskResult(ssid: seq<bv8>, pwd: seq<bv8>, size: nat, before: seq<bv8>): (after: seq<bv8>)
    requires Fits(ssid, pwd, size, |before|)
    ensures |after| == |before|
  {
    if size < 32 then before
    else if Length8(pwd) == 64 then HexKey(pwd) + before[32..]
    else if Derives(ssid, pwd) then Digests(ssid, pwd) + before[40..]
    else before
  }

  /** What the call returns. */
  function Code(pwd: seq<bv8>, size: nat): int { if size >= 32 && Length8(pwd) <= 64 then 0 else -1 }

  method Pbkdf2Sha1(key: seq<bv8>, data: seq<bv8>, digest: array<bv8>) returns (ok: bool)
    requires |key| < 256 && (|key| <= 64 && |data| <= 32 && Printable(key) ==> digest.Length >= 40)
    modifies digest
    ensures ok == (|key| <= 64 && |data| <= 32 && Printable(key))
    ensures digest[..] == if ok then T(key, data, 4096, 1) + T(key, data, 4096, 2) + old(digest[40..]) else old(digest[..])
  {
    hide T, Printable;
    if |key| > 64 || |data| > 32 {
      return false;
    }
    ok := Pbkdf2F(key, data, 4096, 1, digest, 0);
    if !ok {
      return;
    }
    ok := Pbkdf2F(key, data, 4096, 2, digest, 20);
  }

  method DecodeHex(pwd: seq<bv8>, psk: array<bv8>)
    requires |pwd| >= 64 && psk.Length >= 32
    modifies psk
    ensures psk[..] == HexKey(pwd) + old(psk[32..])
  {
    hide HexByte;
    for i := 0 to 32
      invariant forall k | 0 <= k < i :: psk[k] == HexByte(pwd[2 * k], pwd[2 * k + 1])
      invariant psk[32..] == old(psk[32..])
    {
      psk[i] := HexByte(pwd[2 * i], pwd[2 * i + 1]);
    }
    assert psk[..32] == HexKey(pwd);
    assert psk[..] == psk[..32] + psk[32..];
  }

  /**
   * ln_psk_calc. The result 0 does not mean that a key was written: a non-printable passphrase or a long SSID
   * leaves the buffer as it was.
   */
  method PskCalc(ssid: seq<bv8>, pwd: seq<bv8>, psk: array<bv8>, size: nat) returns (r: int)
    requires Fits(ssid, pwd, size, psk.Length)
    modifies psk
    ensures r == Code(pwd, size)
    ensures psk[..] == PskResult(ssid, pwd, size, old(psk[..]))
  {
    hide T, Printable, HexKey;
    if size < 32 {
      return -1;
    }
    var ssidLen, pwdLen := |ssid| % 256, |pwd| % 256;
    if 64 > pwdLen {
      var _ := Pbkdf2Sha1(pwd[..pwdLen], ssid[..ssidLen], psk);
    } else if 64 == pwdLen {
      DecodeHex(pwd, psk);
    } else {
      return -1;
    }
    return 0;
  }

  // --- the size check, the result code and the eight-bit lengths ---

  /** The call changes bytes beyond the size it was given exactly for sizes 32 to 39 and an accepted passphrase. */
  lemma {:induction false} OverrunExactly(ssid: seq<bv8>, pwd: seq<bv8>, size: nat)
    ensures (exists before | size <= |before| && 40 <= |before| ::
              PskResult(ssid, pwd, size, before)[size..] != before[size..])
            <==> 32 <= size < 40 && Derives(ssid, pwd)
  {
    hide Digests, HexKey, Derives;
    if 32 <= size < 40 && Derives(ssid, pwd) {
      var d := Digests(ssid, pwd)[size];
      var before := seq(40, _ => if d == 0 then 1 else 0);
      OverrunByte(ssid, pwd, size, before);
      DifferFrom(PskResult(ssid, pwd, size, before), before, size);
    } else {
      forall before | size <= |before| && 40 <= |before|
        ensures PskResult(ssid, pwd, size, before)[size..] == before[size..]
      {
        KeptBeyond(ssid, pwd, size, before);
      }
    }
  }

  lemma {:induction false} OverrunByte(ssid: seq<bv8>, pwd: seq<bv8>, size: nat, before: seq<bv8>)
    requires 32 <= size < 40 <= |before| && Derives(ssid, pwd)
    ensures PskResult(ssid, pwd, size, before)[size] == Digests(ssid, pwd)[size]
  {
    hide Digests, Printable;
  }

  lemma {:induction false} DifferFrom(a: seq<bv8>, b: seq<bv8>, i: nat)
    requires i < |a| == |b| && a[i] != b[i]
    ensures a[i..] != b[i..]
  {
    assert a[i..][0] != b[i..][0];
  }

  lemma {:induction false} KeptBeyond(ssid: seq<bv8>, pwd: seq<bv8>, size: nat, before: seq<bv8>)
    requires size <= |before| && 40 <= |before| && !(32 <= size < 40 && Derives(ssid, pwd))
    ensures PskResult(ssid, pwd, size, before)[size..] == before[size..]
  {
    hide Digests, HexKey, Derives;
    var n := if Length8(pwd) == 64 then 32 else 40;
    if size >= n {
      assert before[size..] == before[n..][size - n..];
    }
  }

  /** SSID "ap" and passphrase "password" with a 32-byte buffer. */
  lemma {:induction false} OverrunExample(ssid: seq<bv8>, pwd: seq<bv8>)
    requires ssid == [0x61, 0x70] && pwd == [0x70, 0x61, 0x73, 0x73, 0x77, 0x6F, 0x72, 0x64]
    ensures exists before | 40 <= |before| :: PskResult(ssid, pwd, 32, before)[32..] != before[32..]
  {
    OverrunExactly(ssid, pwd, 32);
    hide PskResult;
    assert Derives(ssid, pwd);
    var before :| 32 <= |before| && 40 <= |before| && PskResult(ssid, pwd, 32, before)[32..] != before[32..];
  }

  /** The 32-byte key for what the program sees of its inputs. */
  function Key(ssid: seq<bv8>, pwd: seq<bv8>): (k: seq<bv8>)
    ensures |k| == 32
  {
    if Length8(pwd) == 64 then HexKey(pwd) else Digests(ssid, pwd)[..32]
  }

  /** The call reports success and, whatever the buffer held, leaves the key in it. */
  ghost predicate KeyWritten(ssid: seq<bv8>, pwd: seq<bv8>, size: nat) {
    && Code(pwd, size) == 0
    && forall before | size <= |before| && 40 <= |before| :: PskResult(ssid, pwd, size, before)[..32] == Key(ssid, pwd)
  }

  /** Success comes with a key exactly for 64 characters, or an accepted passphrase and SSID. */
  lemma {:induction false} KeyWrittenExactly(ssid: seq<bv8>, pwd: seq<bv8>, size: nat)
    ensures KeyWritten(ssid, pwd, size) <==> size >= 32 && (Length8(pwd) == 64 || Derives(ssid, pwd))
    ensures |ssid| < 256 && |pwd| < 256 ==>
      (KeyWritten(ssid, pwd, size) <==>
        size >= 32 && (|pwd| == 64 ||
          (|pwd| < 64 && |ssid| <= 32 && forall k | 0 <= k < |pwd| :: 0x20 <= pwd[k] <= 0x7E)))
  {
    hide Digests, HexKey, Key, PskResult;
    if size >= 32 && (Length8(pwd) == 64 || Derives(ssid, pwd)) {
      forall before | size <= |before| && 40 <= |before|
        ensures PskResult(ssid, pwd, size, before)[..32] == Key(ssid, pwd)
      {
        KeyFound(ssid, pwd, size, before);
      }
    } else if size >= 32 {
      var k := Key(ssid, pwd)[0];
      var before := seq(size + 40, _ => if k == 0 then 1 else 0);
      NothingDone(ssid, pwd, size, before);
      assert PskResult(ssid, pwd, size, before)[..32][0] != k;
    }
  }

  lemma {:induction false} KeyFound(ssid: seq<bv8>, pwd: seq<bv8>, size: nat, before: seq<bv8>)
    requires 32 <= size <= |before| && 40 <= |before| && (Length8(pwd) == 64 || Derives(ssid, pwd))
    ensures PskResult(ssid, pwd, size, before)[..32] == Key(ssid, pwd)
  {
    hide Digests, HexKey, Printable;
  }

  lemma {:induction false} NothingDone(ssid: seq<bv8>, pwd: seq<bv8>, size: nat, before: seq<bv8>)
    requires size <= |before| && 40 <= |before| && Length8(pwd) != 64 && !Derives(ssid, pwd)
    ensures PskResult(ssid, pwd, size, before) == before
  {
    hide Digests, HexKey, Derives;
  }

  /** For an ordinary passphrase the buffer starts with T_1 and T_2 after 4096 iterations. */
  lemma {:induction false} PassphraseKey(ssid: seq<bv8>, pwd: seq<bv8>, size: nat, before: seq<bv8>)
    requires 32 <= size <= |before| && 40 <= |before| && |ssid| <= 32
    requires |pwd| < 64 && forall k | 0 <= k < |pwd| :: 0x20 <= pwd[k] <= 0x7E
    ensures PskResult(ssid, pwd, size, before) == T(pwd, ssid, 4096, 1) + T(pwd, ssid, 4096, 2) + before[40..]
  {
    hide T, HexKey;
    assert Seen(pwd) == pwd && Seen(ssid) == ssid;
  }

  /** For 64 characters it starts with the 32 bytes they decode to. */
  lemma {:induction false} DecodedKey(ssid: seq<bv8>, pwd: seq<bv8>, size: nat, before: seq<bv8>)
    requires 32 <= size <= |before| && 40 <= |before| && |pwd| == 64
    ensures var after := PskResult(ssid, pwd, size, before);
      after[32..] == before[32..] && forall k | 0 <= k < 32 :: after[k] == HexByte(pwd[2 * k], pwd[2 * k + 1])
  {
    hide Digests, Printable, HexByte, HexKey;
    assert PskResult(ssid, pwd, size, before) == HexKey(pwd) + before[32..];
    HexKeyBytes(pwd);
  }

  lemma {:induction false} HexKeyBytes(pwd: seq<bv8>)
    requires |pwd| == 64
    ensures forall k | 0 <= k < 32 :: HexKey(pwd)[k] == HexByte(pwd[2 * k], pwd[2 * k + 1])
  {
    hide HexByte;
  }

  /** A passphrase of the two bytes C3 A9 (an accented letter in UTF-8): the result is 0 and the buffer is what it was. */
  lemma {:induction false} SilentFailure(ssid: seq<bv8>, pwd: seq<bv8>, before: seq<bv8>)
    requires 40 <= |before| && pwd == [0xC3, 0xA9]
    ensures Code(pwd, 32) == 0 && !KeyWritten(ssid, pwd, 32) && PskResult(ssid, pwd, 32, before) == before
  {
    hide Digests, KeyWritten;
    KeyWrittenExactly(ssid, pwd, 32);
    assert Seen(pwd)[0] == 0xC3;
  }

  /** Strings the program sees alike give the same key, buffer and result. */
  lemma {:induction false} Truncation(ssid: seq<bv8>, pwd: seq<bv8>, ssid': seq<bv8>, pwd': seq<bv8>, size: nat,
      before: seq<bv8>)
    requires Seen(ssid) == Seen(ssid') && Seen(pwd) == Seen(pwd') && Fits(ssid, pwd, size, |before|)
    ensures Code(pwd, size) == Code(pwd', size) && Fits(ssid', pwd', size, |before|)
    ensures PskResult(ssid, pwd, size, before) == PskResult(ssid', pwd', size, before)
  {
    hide Printable, T, HexByte;
    assert Length8(pwd) == |Seen(pwd)| && Length8(ssid) == |Seen(ssid)|;
    if Length8(pwd) == 64 {
      assert forall i | 0 <= i < 64 :: pwd[i] == Seen(pwd)[i] == pwd'[i];
    }
  }

  /** A passphrase of 256 characters is the empty passphrase. */
  lemma {:induction false} LongPassphrase(ssid: seq<bv8>, pwd: seq<bv8>, size: nat, before: seq<bv8>)
    requires |pwd| == 256 && Fits(ssid, [], size, |before|)
    ensures Code(pwd, size) == Code([], size) && Fits(ssid, pwd, size, |before|)
    ensures PskResult(ssid, pwd, size, before) == PskResult(ssid, [], size, before)
    ensures 32 <= size && |ssid| <= 32 ==> PskResult(ssid, pwd, size, before)[..20] == T([], ssid, 4096, 1)
  {
    hide T;
    assert Seen(pwd) == Seen([]) == [];
    Truncation(ssid, [], ssid, pwd, size, before);
  }
}
