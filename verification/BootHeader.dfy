// tools/python_scripts/boot_header.py (the 24-byte little-endian header "<I2H4I") and build_stage_second of
// after_build_for_boot.py, which fills the header in at the start of the boot image.
module BootHeader {
  import opened ByteValues
  import Crc32

  type Bytes = seq<bv8>
  type u16 = x: int | 0 <= x < 0x10000

  const HEADER_SIZE: nat := 24
  const SIZE_LIMIT: nat := 24576
  const CRP_VALID_FLAG: bv32 := 0x46505243

  // --- little-endian fields ---

  function Word(w: bv32): (b: Bytes)
    ensures |b| == 4
  {
    [(w & 0xFF) as bv8, ((w >> 8) & 0xFF) as bv8, ((w >> 16) & 0xFF) as bv8, (w >> 24) as bv8]
  }

  function WordAt(b: Bytes, i: nat): bv32
    requires i + 4 <= |b|
  {
    (b[i] as bv32) | (b[i + 1] as bv32 << 8) | (b[i + 2] as bv32 << 16) | (b[i + 3] as bv32 << 24)
  }

  function Half(w: u16): (b: Bytes)
    ensures |b| == 2
  {
    [LowByte(w), LowByte(w / 256)]
  }

  function HalfAt(b: Bytes, i: nat): u16
    requires i + 2 <= |b|
  {
    Value(b[i]) + 256 * Value(b[i + 1])
  }

  lemma {:induction false} WordRoundTrip(w: bv32, b: Bytes, i: nat)
    requires i + 4 <= |b| && b[i..i + 4] == Word(w)
    ensures WordAt(b, i) == w
  {
    var s := b[i..i + 4];
    assert s[0] == b[i] && s[1] == b[i + 1] && s[2] == b[i + 2] && s[3] == b[i + 3];
  }

  lemma {:induction false} HalfRoundTrip(w: u16, b: Bytes, i: nat)
    requires i + 2 <= |b| && b[i..i + 2] == Half(w)
    ensures HalfAt(b, i) == w
  {
    hide LowByte, Value;
    var s := b[i..i + 2];
    assert s[0] == b[i] && s[1] == b[i + 1];
    LowValue(w);
    LowValue(w / 256);
  }

  lemma {:induction false} WordOfBytes(b: Bytes, i: nat)
    requires i + 4 <= |b|
    ensures Word(WordAt(b, i)) == b[i..i + 4]
  {}

  lemma {:induction false} HalfOfBytes(b: Bytes, i: nat)
    requires i + 2 <= |b|
    ensures Half(HalfAt(b, i)) == b[i..i + 2]
  {
    hide LowByte, Value;
    var w := HalfAt(b, i);
    LowOfValue(b[i], w);
    LowOfValue(b[i + 1], w / 256);
  }

  // --- the header ---

  /** The fields before the header CRC. */
  datatype Fields = Fields(target: bv32, length: u16, crcOffset: u16, crc: bv32, vector: bv32, crp: bv32)

  function First20(h: Fields): (b: Bytes)
    ensures |b| == 20
  {
    Word(h.target) + Half(h.length) + Half(h.crcOffset) + Word(h.crc) + Word(h.vector) + Word(h.crp)
  }

  /** struct.pack_into("<I2H4I", ...) */
  function Packed(h: Fields, headerCrc: bv32): (b: Bytes)
    ensures |b| == HEADER_SIZE
  {
    First20(h) + Word(headerCrc)
  }

  /** The header as it should be: its last word is the CRC of the bytes before it. */
  function Header(h: Fields): (b: Bytes)
    ensures |b| == HEADER_SIZE
  {
    Packed(h, Crc32.Crc(First20(h)))
  }

  /** struct.unpack("<I2H4I", ...) */
  function Parse(b: Bytes): Fields
    requires HEADER_SIZE <= |b|
  {
    Fields(WordAt(b, 0), HalfAt(b, 4), HalfAt(b, 6), WordAt(b, 8), WordAt(b, 12), WordAt(b, 16))
  }

  lemma {:induction false} First20Slices(h: Fields)
    ensures var p := First20(h);
            && p[0..4] == Word(h.target) && p[4..6] == Half(h.length) && p[6..8] == Half(h.crcOffset)
            && p[8..12] == Word(h.crc) && p[12..16] == Word(h.vector) && p[16..20] == Word(h.crp)
  {
    hide Word, Half;
    var p := First20(h);
    assert p[0..4] == Word(h.target);
    assert p[12..16] == Word(h.vector);
    assert p[16..20] == Word(h.crp);
  }

  lemma {:induction false} SameSlices(b: Bytes, p: Bytes)
    requires p <= b
    ensures forall i: nat, j: nat | i <= j <= |p| :: b[i..j] == p[i..j]
  {
    forall i: nat, j: nat | i <= j <= |p|
      ensures b[i..j] == p[i..j]
    {
      assert b[..|p|][i..j] == p[i..j];
    }
  }

  lemma {:induction false} ParsePacked(b: Bytes, h: Fields, headerCrc: bv32)
    requires HEADER_SIZE <= |b| && b[..HEADER_SIZE] == Packed(h, headerCrc)
    ensures Parse(b) == h && WordAt(b, 20) == headerCrc
  {
    hide Word, Half, WordAt, HalfAt;
    First20Slices(h);
    var p := First20(h);
    hide First20;
    assert b[..20] == b[..HEADER_SIZE][..20] == p;
    assert b[20..24] == b[..HEADER_SIZE][20..];
    SameSlices(b, p);
    WordRoundTrip(h.target, b, 0);
    HalfRoundTrip(h.length, b, 4);
    HalfRoundTrip(h.crcOffset, b, 6);
    WordRoundTrip(h.crc, b, 8);
    WordRoundTrip(h.vector, b, 12);
    WordRoundTrip(h.crp, b, 16);
    WordRoundTrip(headerCrc, b, 20);
  }

  /** Where each field is, least significant byte first. */
  lemma {:induction false} FieldBytes(b: Bytes)
    requires HEADER_SIZE <= |b|
    ensures var h := Parse(b);
      && h.length == (b[4] as int) + 256 * (b[5] as int) && h.crcOffset == (b[6] as int) + 256 * (b[7] as int)
      && h.target == Spelled(b[3], b[2], b[1], b[0]) && h.crc == Spelled(b[11], b[10], b[9], b[8])
      && h.vector == Spelled(b[15], b[14], b[13], b[12]) && h.crp == Spelled(b[19], b[18], b[17], b[16])
      && WordAt(b, 20) == Spelled(b[23], b[22], b[21], b[20])
  {}

  /** The word with these bytes, most significant first. */
  function Spelled(b3: bv8, b2: bv8, b1: bv8, b0: bv8): bv32 {
    ((((b3 as bv32) * 256 + (b2 as bv32)) * 256) + (b1 as bv32)) * 256 + (b0 as bv32)
  }

  /** Packing what was unpacked gives the bytes back. */
  lemma {:induction false} PackParsed(b: Bytes)
    requires |b| == HEADER_SIZE
    ensures Packed(Parse(b), WordAt(b, 20)) == b
  {
    hide Word, Half, WordAt, HalfAt;
    WordOfBytes(b, 0);
    HalfOfBytes(b, 4);
    HalfOfBytes(b, 6);
    WordOfBytes(b, 8);
    WordOfBytes(b, 12);
    WordOfBytes(b, 16);
    WordOfBytes(b, 20);
    Join(b, 4, 6);
    Join(b, 6, 8);
    Join(b, 8, 12);
    Join(b, 12, 16);
    Join(b, 16, 20);
    Join(b, 20, 24);
    assert b[0..4] == b[..4] && b[..24] == b;
  }

  lemma {:induction false} Join(b: Bytes, i: nat, j: nat)
    requires i <= j <= |b|
    ensures b[..i] + b[i..j] == b[..j]
  {}

  lemma {:induction false} Regroup(a: Bytes, b: Bytes, c: Bytes, d: Bytes, e: Bytes, f: Bytes)
    ensures a + b + c + d + e + f == a + (b + c) + (d + e + f)
  {}

  /** Packing once is not enough: it stores the CRC of the old bytes, which is wrong when the length was set, ... */
  lemma {:induction false} OnePackStaleLength(before: Fields, length: u16)
    requires length != before.length
    ensures var h := before.(length := length); Packed(h, Crc32.Crc(First20(before))) != Header(h)
  {
    hide Word, Half, Crc32.Crc;
    var h := before.(length := length);
    var (p, q) := (First20(before), First20(h));
    var pre, post := Word(h.target), Word(h.crc) + Word(h.vector) + Word(h.crp);
    var x, y := Half(before.length) + Half(h.crcOffset), Half(length) + Half(h.crcOffset);
    HalfInjective(before.length, length);
    assert x[..2] == Half(before.length) && y[..2] == Half(length);
    Regroup(pre, Half(before.length), Half(h.crcOffset), Word(h.crc), Word(h.vector), Word(h.crp));
    Regroup(pre, Half(length), Half(h.crcOffset), Word(h.crc), Word(h.vector), Word(h.crp));
    hide First20;
    Crc32.FourBytesDetected(pre, x, y, post);
    LastWordDiffers(h, Crc32.Crc(p), Crc32.Crc(q));
  }

  /** ... and when the body CRC was set. */
  lemma {:induction false} OnePackStaleCrc(before: Fields, crc: bv32)
    requires crc != before.crc
    ensures var h := before.(crc := crc); Packed(h, Crc32.Crc(First20(before))) != Header(h)
  {
    hide Word, Half, Crc32.Crc;
    var h := before.(crc := crc);
    var (p, q) := (First20(before), First20(h));
    var pre, post := Word(h.target) + Half(h.length) + Half(h.crcOffset), Word(h.vector) + Word(h.crp);
    var x, y := Word(before.crc), Word(crc);
    WordInjective(before.crc, crc);
    assert p == pre + x + post && q == pre + y + post;
    hide First20;
    Crc32.FourBytesDetected(pre, x, y, post);
    LastWordDiffers(h, Crc32.Crc(p), Crc32.Crc(q));
  }

  lemma {:induction false} WordInjective(x: bv32, y: bv32)
    ensures Word(x) == Word(y) ==> x == y
  {
    WordRoundTrip(x, Word(x), 0);
    WordRoundTrip(y, Word(y), 0);
  }

  lemma {:induction false} HalfInjective(x: u16, y: u16)
    ensures Half(x) == Half(y) ==> x == y
  {
    HalfRoundTrip(x, Half(x), 0);
    HalfRoundTrip(y, Half(y), 0);
  }

  lemma {:induction false} LastWordDiffers(h: Fields, c: bv32, d: bv32)
    requires c != d
    ensures Packed(h, c) != Packed(h, d)
  {
    ParsePacked(Packed(h, c), h, c);
    if Packed(h, c) == Packed(h, d) {
      ParsePacked(Packed(h, c), h, d);
    }
  }

  class BootHeader {
    var targetAddr: bv32
    var binLength: int
    var crcOffset: u16
    var crcValue: bv32
    var vectorAddr: bv32
    var crpFlag: bv32
    var headerCrc: bv32
    const buffer: array<bv8>

    /** Only called when the length fits its 16-bit field; struct.pack_into raises otherwise. */
    function View(): Fields
      requires 0 <= binLength < 0x10000
      reads this
    {
      Fields(targetAddr, binLength, crcOffset, crcValue, vectorAddr, crpFlag)
    }

    constructor (otherBuf: Bytes)
      requires HEADER_SIZE <= |otherBuf|
      ensures fresh(buffer) && buffer.Length == HEADER_SIZE && buffer[..] == otherBuf[..HEADER_SIZE]
      ensures 0 <= binLength < 0x10000 && View() == Parse(otherBuf) && headerCrc == WordAt(otherBuf, 20)
    {
      hide WordAt, HalfAt;
      targetAddr := WordAt(otherBuf, 0);
      binLength := HalfAt(otherBuf, 4);
      crcOffset := HalfAt(otherBuf, 6);
      crcValue := WordAt(otherBuf, 8);
      vectorAddr := WordAt(otherBuf, 12);
      crpFlag := WordAt(otherBuf, 16);
      headerCrc := WordAt(otherBuf, 20);
      buffer := new bv8[HEADER_SIZE](i requires 0 <= i < HEADER_SIZE => otherBuf[i]);
    }

    /** The setter refuses every flag but 0, 1 and the valid flag. */
    method SetCrpFlag(crp: bv32) returns (ok: bool)
      modifies this`crpFlag
      ensures ok == (crp == 0 || crp == 1 || crp == CRP_VALID_FLAG)
      ensures crpFlag == if ok then crp else old(crpFlag)
    {
      ok := crp == 0 || crp == 1 || crp == CRP_VALID_FLAG;
      if ok {
        crpFlag := crp;
      }
    }

    /** The getter recomputes the CRC over the buffer as it is. */
    method GetHeaderCrc() returns (c: bv32)
      requires buffer.Length == HEADER_SIZE
      modifies this`headerCrc
      ensures c == headerCrc == Crc32.Crc(buffer[..20])
    {
      headerCrc := Crc32.Crc(buffer[..20]);
      c := headerCrc;
    }

    method PackInto(c: bv32)
      requires buffer.Length == HEADER_SIZE && 0 <= binLength < 0x10000
      modifies buffer
      ensures buffer[..] == Packed(View(), c)
    {
      hide Word, Half;
      var b := Packed(View(), c);
      forall i | 0 <= i < HEADER_SIZE {
        buffer[i] := b[i];
      }
      assert buffer[..] == b;
    }

    method ToByteArray()
      requires buffer.Length == HEADER_SIZE && 0 <= binLength < 0x10000
      modifies this`headerCrc, buffer
      ensures buffer[..] == Header(View()) && headerCrc == Crc32.Crc(First20(View()))
    {
      hide Word, Half, Crc32.Crc, First20;
      var c := GetHeaderCrc();
      PackInto(c);
      assert buffer[..20] == buffer[..][..20] == First20(View());
      headerCrc := Crc32.Crc(buffer[..20]);
      c := GetHeaderCrc();
      PackInto(c);
    }
  }

  // --- the second build stage ---

  datatype Outcome = Done | FileTooBig | HeaderTooShort

  function Min(a: nat, b: nat): nat { if a < b then a else b }

  /** What a read from this offset gives; past the end it is nothing. */
  function From(f: Bytes, offset: u16): Bytes { f[Min(offset, |f|)..] }

  function NewFields(f: Bytes, crp: int): Fields
    requires HEADER_SIZE <= |f| <= SIZE_LIMIT
  {
    var h := Parse(f);
    Fields(h.target, |f|, h.crcOffset, Crc32.Crc(From(f, h.crcOffset)), h.vector,
           if crp == 0 then 0 else CRP_VALID_FLAG)
  }

  /** The file after the stage. */
  function Built(f: Bytes, crp: int): (g: Bytes)
    requires HEADER_SIZE <= |f| <= SIZE_LIMIT
    ensures |g| == |f|
  {
    Header(NewFields(f, crp)) + f[HEADER_SIZE..]
  }

  /** fObj.seek(0); fObj.write(bytes) */
  method WriteStart(file: array<bv8>, bytes: Bytes)
    requires |bytes| <= file.Length
    modifies file
    ensures file[..] == bytes + old(file[..])[|bytes|..]
  {
    forall i | 0 <= i < |bytes| {
      file[i] := bytes[i];
    }
  }

  method BuildStageSecond(file: array<bv8>, crp: int) returns (r: Outcome)
    modifies file
    ensures r == if file.Length > 24576 then FileTooBig else if file.Length < 24 then HeaderTooShort else Done
    ensures file[..] == if r == Done then Built(old(file[..]), crp) else old(file[..])
  {
    hide Crc32.Crc, Header, Parse;
    if file.Length > SIZE_LIMIT {
      return FileTooBig;
    }
    if file.Length < HEADER_SIZE {
      return HeaderTooShort;
    }
    ghost var f := file[..];
    ParsePrefix(f);
    var header := new BootHeader(file[..HEADER_SIZE]);
    header.binLength := file.Length;
    var ok := header.SetCrpFlag(if crp == 0 then 0 else CRP_VALID_FLAG);
    var start := Min(header.crcOffset, file.Length);
    var body := file[start..];
    assert body == From(f, header.crcOffset);
    header.crcValue := Crc32.Crc(body);
    header.ToByteArray();
    assert header.View() == NewFields(f, crp);
    WriteStart(file, header.buffer[..]);
    return Done;
  }

  lemma {:induction false} ParsePrefix(f: Bytes)
    requires HEADER_SIZE <= |f|
    ensures Parse(f[..HEADER_SIZE]) == Parse(f) && WordAt(f[..HEADER_SIZE], 20) == WordAt(f, 20)
  {
    PackParsed(f[..HEADER_SIZE]);
    ParsePacked(f, Parse(f[..HEADER_SIZE]), WordAt(f[..HEADER_SIZE], 20));
  }

  /** The header tells the file's length, keeps its other fields, and carries its own CRC; the body is untouched. */
  lemma {:induction false} BuiltHeader(f: Bytes, crp: int)
    requires HEADER_SIZE <= |f| <= SIZE_LIMIT
    ensures var (g, h, h') := (Built(f, crp), Parse(f), Parse(Built(f, crp)));
            && g[HEADER_SIZE..] == f[HEADER_SIZE..]
            && h'.length == |g|
            && h'.target == h.target && h'.crcOffset == h.crcOffset && h'.vector == h.vector
            && h'.crp == (if crp == 0 then 0 else 0x46505243)
            && h'.crc == Crc32.Crc(if h.crcOffset <= |f| then f[h.crcOffset..] else [])
            && WordAt(g, 20) == Crc32.Crc(g[..20])
            && h' == NewFields(f, crp)
  {
    hide Crc32.Crc, Parse, First20, WordAt, HalfAt, Word, From;
    var (g, h) := (Built(f, crp), NewFields(f, crp));
    assert g[..HEADER_SIZE] == Header(h);
    ParsePacked(g, h, Crc32.Crc(First20(h)));
    assert g[..20] == g[..HEADER_SIZE][..20] == First20(h);
    FromSlices(f, Parse(f).crcOffset);
  }

  lemma {:induction false} FromSlices(f: Bytes, offset: u16)
    ensures From(f, offset) == if offset <= |f| then f[offset..] else []
  {}

  /** The body CRC of the built file is the CRC of its own bytes from crc_offset on. */
  ghost predicate BodyCrcRight(g: Bytes)
    requires HEADER_SIZE <= |g|
  {
    var start := Parse(g).crcOffset;
    Parse(g).crc == Crc32.Crc(if start <= |g| then g[start..] else [])
  }

  lemma {:induction false} SameTail(a: Bytes, b: Bytes, s: Bytes)
    ensures Crc32.Crc(a + s) == Crc32.Crc(b + s) <==> Crc32.Crc(a) == Crc32.Crc(b)
  {
    hide Crc32.CrcBits, Crc32.Bits, Crc32.Xor;
    CrcParts(a, s);
    CrcParts(b, s);
    var (x, y) := (Register(a), Register(b));
    if Crc32.Crc(a + s) == Crc32.Crc(b + s) {
      Crc32.XorCancel(Crc32.CrcBits(x, Crc32.Bits(s)), Crc32.CrcBits(y, Crc32.Bits(s)), 0xFFFFFFFF);
      Crc32.SuffixInjective(x, y, Crc32.Bits(s));
    }
    if Crc32.Crc(a) == Crc32.Crc(b) {
      Crc32.XorCancel(x, y, 0xFFFFFFFF);
    }
  }

  /** The CRC register after a message, before the final complement. */
  function Register(m: Bytes): bv32 { Crc32.CrcBits(0xFFFFFFFF, Crc32.Bits(m)) }

  lemma {:induction false} CrcParts(a: Bytes, s: Bytes)
    ensures Register(a + s) == Crc32.CrcBits(Register(a), Crc32.Bits(s))
    ensures Crc32.Crc(a) == Crc32.Xor(Register(a), 0xFFFFFFFF)
    ensures Crc32.Crc(a + s) == Crc32.Xor(Crc32.CrcBits(Register(a), Crc32.Bits(s)), 0xFFFFFFFF)
  {
    hide Crc32.CrcBits, Crc32.Bits, Crc32.Xor;
    Crc32.BitsConcat(a, s);
    Crc32.CrcBitsConcat(0xFFFFFFFF, Crc32.Bits(a), Crc32.Bits(s));
  }

  lemma {:induction false} WordBytes(w: bv32)
    ensures Word(w) == [Crc32.LowByte(w), Crc32.LowByte(Crc32.Shr8(w)), Crc32.LowByte(Crc32.Shr8(Crc32.Shr8(w))),
                        Crc32.LowByte(Crc32.Shr8(Crc32.Shr8(Crc32.Shr8(w))))]
  {}

  /** A message followed by a word: messages with the same sum of register and word have the same CRC, others not. */
  lemma {:induction false} WordAppended(x: Bytes, n: bv32, y: Bytes, c: bv32)
    ensures Crc32.Crc(x + Word(n)) == Crc32.Crc(y + Word(c)) <==> Crc32.Xor(Register(x), n) == Crc32.Xor(Register(y), c)
  {
    hide Crc32.Crc, Crc32.CrcBits, Crc32.Bits, Crc32.Xor, Crc32.StepN, Crc32.LowByte, Crc32.Shr8, Word, Register;
    CrcParts(x, Word(n));
    CrcParts(y, Word(c));
    WordBytes(n);
    WordBytes(c);
    Crc32.WordFed(Register(x), n);
    Crc32.WordFed(Register(y), c);
    var (p, q) := (Crc32.Xor(Register(x), n), Crc32.Xor(Register(y), c));
    if Crc32.Crc(x + Word(n)) == Crc32.Crc(y + Word(c)) {
      Crc32.XorCancel(Crc32.StepN(p, 32), Crc32.StepN(q, 32), 0xFFFFFFFF);
      Crc32.StepsInjective(p, q, 32);
    }
  }

  /**
   * A message y that carries the CRC of p + y as its last word has the same CRC as x with some last word, exactly
   * when that word is the CRC of p + x.
   */
  lemma {:induction false} CrcInside(p: Bytes, x: Bytes, y: Bytes, n: bv32)
    requires |x| == |y|
    ensures Crc32.Crc(x + Word(n)) == Crc32.Crc(y + Word(Crc32.Crc(p + y))) <==> n == Crc32.Crc(p + x)
  {
    hide Crc32.Crc, Crc32.CrcBits, Crc32.Bits, Crc32.Xor, Crc32.StepN, Word, Register;
    var (u, a, b) := (Register(p), Register(x), Register(y));
    var (a', b') := (Crc32.CrcBits(u, Crc32.Bits(x)), Crc32.CrcBits(u, Crc32.Bits(y)));
    WordAppended(x, n, y, Crc32.Crc(p + y));
    CrcParts(p, x);
    CrcParts(p, y);
    RegisterIs(x);
    RegisterIs(y);
    Crc32.Difference(0xFFFFFFFF, u, Crc32.Bits(x));
    Crc32.Difference(0xFFFFFFFF, u, Crc32.Bits(y));
    assert Crc32.Xor(a, a') == Crc32.Xor(b, b');
    Crc32.Assoc(a, a', 0xFFFFFFFF);
    Crc32.Assoc(b, b', 0xFFFFFFFF);
    Crc32.Comm(a, n);
    Crc32.Comm(a, Crc32.Crc(p + x));
    if Crc32.Xor(a, n) == Crc32.Xor(a, Crc32.Crc(p + x)) {
      Crc32.XorCancel(n, Crc32.Crc(p + x), a);
    }
  }

  lemma {:induction false} RegisterIs(m: Bytes)
    ensures Register(m) == Crc32.CrcBits(0xFFFFFFFF, Crc32.Bits(m))
  {}

  /**
   * When the body CRC of the built file is right, told from the file before: the checked bytes leave out the header;
   * or the old header CRC is that of the new header up to crc_offset and the old header from there to byte 20; or,
   * with crc_offset inside the header CRC, its checked bytes are already those the stage writes.
   */
  predicate BodyCrcGuard(f: Bytes, crp: int)
    requires HEADER_SIZE <= |f| <= SIZE_LIMIT
  {
    var (start, h) := (Parse(f).crcOffset, NewFields(f, crp));
    if start >= HEADER_SIZE then true
    else if start <= 20 then WordAt(f, 20) == Crc32.Crc(First20(h)[..start] + f[start..20])
    else f[start..HEADER_SIZE] == Header(h)[start..]
  }

  lemma {:induction false} BodyCrcExactly(f: Bytes, crp: int)
    requires HEADER_SIZE <= |f| <= SIZE_LIMIT
    ensures BodyCrcRight(Built(f, crp)) <==> BodyCrcGuard(f, crp)
  {
    hide Crc32.Crc, Parse, Built, Header, First20, WordAt, Word;
    BuiltHeader(f, crp);
    var (g, start) := (Built(f, crp), Parse(f).crcOffset);
    if start >= HEADER_SIZE {
      assert From(f, start) == f[HEADER_SIZE..][Min(start, |f|) - HEADER_SIZE..];
      assert From(g, start) == g[HEADER_SIZE..][Min(start, |f|) - HEADER_SIZE..];
    } else {
      BodyCrcOfHeader(f, crp);
      if start <= 20 {
        BodyCrcAcrossHeader(f, crp);
      } else {
        BodyCrcInHeaderCrc(f, crp);
      }
    }
  }

  /** For a crc_offset inside the header only the checked header bytes matter. */
  lemma {:induction false} BodyCrcOfHeader(f: Bytes, crp: int)
    requires HEADER_SIZE <= |f| <= SIZE_LIMIT && Parse(f).crcOffset < HEADER_SIZE
    ensures var (start, h) := (Parse(f).crcOffset, Header(NewFields(f, crp)));
            BodyCrcRight(Built(f, crp)) <==> Crc32.Crc(f[start..HEADER_SIZE]) == Crc32.Crc(h[start..])
  {
    hide Crc32.Crc, Parse, Header;
    BuiltHeader(f, crp);
    var (g, start) := (Built(f, crp), Parse(f).crcOffset);
    assert From(f, start) == f[start..HEADER_SIZE] + f[HEADER_SIZE..];
    assert From(g, start) == Header(NewFields(f, crp))[start..] + f[HEADER_SIZE..];
    SameTail(f[start..HEADER_SIZE], Header(NewFields(f, crp))[start..], f[HEADER_SIZE..]);
  }

  lemma {:induction false} BodyCrcAcrossHeader(f: Bytes, crp: int)
    requires HEADER_SIZE <= |f| <= SIZE_LIMIT && Parse(f).crcOffset <= 20
    ensures var (start, h) := (Parse(f).crcOffset, NewFields(f, crp));
            BodyCrcRight(Built(f, crp)) <==> WordAt(f, 20) == Crc32.Crc(First20(h)[..start] + f[start..20])
  {
    hide Crc32.Crc, Parse, NewFields, BodyCrcRight, First20, Word, WordAt, Built;
    BodyCrcOfHeader(f, crp);
    var (start, h) := (Parse(f).crcOffset, NewFields(f, crp));
    var p := First20(h);
    WordOfBytes(f, 20);
    assert f[start..HEADER_SIZE] == f[start..20] + Word(WordAt(f, 20));
    assert Header(h)[start..] == p[start..] + Word(Crc32.Crc(p));
    assert p == p[..start] + p[start..];
    CrcInside(p[..start], f[start..20], p[start..], WordAt(f, 20));
  }

  /** When only bytes of the header CRC are checked, they must have been right before. */
  lemma {:induction false} BodyCrcInHeaderCrc(f: Bytes, crp: int)
    requires HEADER_SIZE <= |f| <= SIZE_LIMIT && 20 <= Parse(f).crcOffset < HEADER_SIZE
    ensures var (start, h) := (Parse(f).crcOffset, Header(NewFields(f, crp)));
            BodyCrcRight(Built(f, crp)) <==> f[start..HEADER_SIZE] == h[start..]
  {
    hide Crc32.Crc, Parse, NewFields, Header, BodyCrcRight;
    BodyCrcOfHeader(f, crp);
    var (start, h) := (Parse(f).crcOffset, Header(NewFields(f, crp)));
    var (x, y) := (f[start..HEADER_SIZE], h[start..]);
    assert [] + x + [] == x && [] + y + [] == y;
    if x != y {
      Crc32.FourBytesDetected([], x, y, []);
    }
  }

  /** With crc_offset up to 4, or up to 8 when the length is right already, it takes a right header CRC before. */
  lemma {:induction false} BodyCrcOverHeader(f: Bytes, crp: int)
    requires HEADER_SIZE <= |f| <= SIZE_LIMIT
    requires Parse(f).crcOffset <= 4 || (Parse(f).crcOffset <= 8 && Parse(f).length == |f|)
    ensures BodyCrcRight(Built(f, crp)) <==> WordAt(f, 20) == Crc32.Crc(f[..20])
  {
    hide Crc32.Crc, BodyCrcRight, Word, WordAt, Half, HalfAt, Built;
    BodyCrcAcrossHeader(f, crp);
    var (start, p) := (Parse(f).crcOffset, First20(NewFields(f, crp)));
    WordOfBytes(f, 0);
    HalfOfBytes(f, 4);
    HalfOfBytes(f, 6);
    First20Slices(NewFields(f, crp));
    assert p[0..4] == f[0..4];
    assert start > 4 ==> p[4..6] == f[4..6] && p[6..8] == f[6..8];
    SamePrefix(p, f, start);
    assert p[..start] + f[start..20] == f[..20];
  }

  lemma {:induction false} SamePrefix(p: Bytes, f: Bytes, n: nat)
    requires |p| >= 8 && |f| >= 8 && n <= 8 && p[0..4] == f[0..4]
    requires n > 4 ==> p[4..6] == f[4..6] && p[6..8] == f[6..8]
    ensures p[..n] == f[..n]
  {
    assert p[..4] == p[0..4] && f[..4] == f[0..4];
    if n > 4 {
      assert p[..8] == p[0..4] + p[4..6] + p[6..8] && f[..8] == f[0..4] + f[4..6] + f[6..8];
      assert p[..n] == p[..8][..n] && f[..n] == f[..8][..n];
    } else {
      assert p[..n] == p[..4][..n] && f[..n] == f[..4][..n];
    }
  }

  /** For the ordinary files: the body CRC is that of the bytes from crc_offset to the end, in the file as it is then. */
  lemma {:induction false} BodyCrcOrdinary(f: Bytes, crp: int)
    requires HEADER_SIZE <= |f| <= SIZE_LIMIT && 24 <= Parse(f).crcOffset
    ensures var (g, start) := (Built(f, crp), Parse(f).crcOffset);
      Parse(g).crc == Crc32.Crc(if start <= |f| then g[start..] else [])
      && (start <= |f| ==> g[start..] == f[start..])
  {
    hide Crc32.Crc, Parse, Built;
    BuiltHeader(f, crp);
    var (g, start) := (Built(f, crp), Parse(f).crcOffset);
    if start <= |f| {
      assert f[start..] == f[24..][start - 24..] && g[start..] == g[24..][start - 24..];
    }
  }

  /** A file whose crc_offset is 20 gets a wrong body CRC for one of the two protection settings. */
  lemma {:induction false} BodyCrcCanFail(f: Bytes)
    requires HEADER_SIZE <= |f| <= SIZE_LIMIT && Parse(f).crcOffset == 20
    ensures !BodyCrcRight(Built(f, 0)) || !BodyCrcRight(Built(f, 1))
  {
    hide Crc32.Crc, Parse, BodyCrcRight, Word, Half, WordAt, From;
    BodyCrcInHeaderCrc(f, 0);
    BodyCrcInHeaderCrc(f, 1);
    var (h0, h1) := (NewFields(f, 0), NewFields(f, 1));
    var (p, q) := (First20(h0), First20(h1));
    assert p[16..] == Word(0) && q[16..] == Word(CRP_VALID_FLAG);
    WordInjective(0, CRP_VALID_FLAG);
    assert p == p[..16] + p[16..] + [] && q == p[..16] + q[16..] + [];
    Crc32.FourBytesDetected(p[..16], p[16..], q[16..], []);
    assert Built(f, 0)[20..24] == Word(Crc32.Crc(p)) && Built(f, 1)[20..24] == Word(Crc32.Crc(q));
    WordInjective(Crc32.Crc(p), Crc32.Crc(q));
  }

  /** Two files with crc_offset 20 that differ in their target word only: one gets a wrong body CRC, whatever crp is. */
  lemma {:induction false} TargetDecides(f: Bytes, target: bv32, crp: int)
    requires HEADER_SIZE <= |f| <= SIZE_LIMIT && Parse(f).crcOffset == 20 && target != Parse(f).target
    ensures var f' := Word(target) + f[4..];
      && Parse(f') == Parse(f).(target := target)
      && (!BodyCrcRight(Built(f, crp)) || !BodyCrcRight(Built(f', crp)))
  {
    hide Crc32.Crc, Parse, BodyCrcRight, Word, Half, WordAt;
    var f' := Word(target) + f[4..];
    OtherTarget(f, target);
    BodyCrcInHeaderCrc(f, crp);
    BodyCrcInHeaderCrc(f', crp);
    assert From(f, 20) == f[20..] == f'[20..] == From(f', 20);
    var (h, h') := (NewFields(f, crp), NewFields(f', crp));
    assert h' == h.(target := target);
    HeaderCrcsDiffer(h, target);
    assert Header(h)[20..] == Word(Crc32.Crc(First20(h))) && Header(h')[20..] == Word(Crc32.Crc(First20(h')));
    WordInjective(Crc32.Crc(First20(h)), Crc32.Crc(First20(h')));
    assert f[20..24] == f'[20..24];
  }

  lemma {:induction false} OtherTarget(f: Bytes, target: bv32)
    requires HEADER_SIZE <= |f|
    ensures Parse(Word(target) + f[4..]) == Parse(f).(target := target)
  {
    hide Word, Half, WordAt, HalfAt;
    var h := Parse(f);
    var g := f[..HEADER_SIZE];
    ParsePrefix(f);
    PackParsed(g);
    First20Slices(h);
    var p := Packed(h.(target := target), WordAt(g, 20));
    assert p[4..] == g[4..];
    assert (Word(target) + f[4..])[..HEADER_SIZE] == p;
    ParsePacked(Word(target) + f[4..], h.(target := target), WordAt(g, 20));
  }

  lemma {:induction false} HeaderCrcsDiffer(h: Fields, target: bv32)
    requires target != h.target
    ensures Crc32.Crc(First20(h)) != Crc32.Crc(First20(h.(target := target)))
  {
    hide Word, Half, Crc32.Crc;
    var post := Half(h.length) + Half(h.crcOffset) + Word(h.crc) + Word(h.vector) + Word(h.crp);
    WordInjective(h.target, target);
    assert First20(h) == [] + Word(h.target) + post && First20(h.(target := target)) == [] + Word(target) + post;
    Crc32.FourBytesDetected([], Word(h.target), Word(target), post);
  }

  /** For either protection setting, a file of 24 bytes that gets a wrong body CRC. */
  lemma {:induction false} BodyCrcFails(crp: int)
    ensures exists f: Bytes :: |f| == HEADER_SIZE && Parse(f).crcOffset == 20 && !BodyCrcRight(Built(f, crp))
  {
    hide Parse, BodyCrcRight, Built, Word;
    var f := Packed(Fields(0, 24, 20, 0, 0, 0), 0);
    ParsePacked(f, Fields(0, 24, 20, 0, 0, 0), 0);
    TargetDecides(f, 1, crp);
    assert |Word(1) + f[4..]| == HEADER_SIZE;
  }

  /** Building a built file again changes nothing, when the checked bytes leave out the header. */
  lemma {:induction false} BuildTwice(f: Bytes, crp: int)
    requires HEADER_SIZE <= |f| <= SIZE_LIMIT && Parse(f).crcOffset >= HEADER_SIZE
    ensures Built(Built(f, crp), crp) == Built(f, crp)
  {
    hide Crc32.Crc, Parse, Header, From;
    var (g, start) := (Built(f, crp), Parse(f).crcOffset);
    BuiltHeader(f, crp);
    BodyCrcOrdinary(f, crp);
    FromSlices(f, start);
    FromSlices(g, start);
  }
}
