// Bytes as numbers: the low byte of a number, and the number some bytes spell.
module ByteValues {
  function LowByte(n: nat): bv8 { (n % 256) as bv8 }

  function Value(b: bv8): (n: nat)
    ensures n < 256
  {
    b as int
  }

  function Doubled(b: bv8, one: bool): bv8 { (b << 1) | (if one then 1 else 0) }

  lemma {:induction false} DoubledValue(b: bv8, one: bool)
    requires Value(b) < 128
    ensures Value(Doubled(b, one)) == 2 * Value(b) + (if one then 1 else 0)
  {
    assert b < 128;
  }

  lemma {:induction false} ByteOfValue(n: nat) returns (b: bv8)
    requires n < 256
    ensures Value(b) == n
    decreases n
  {
    hide Value, Doubled;
    if n == 0 {
      ZeroValue();
      b := 0;
    } else {
      b := ByteOfValue(n / 2);
      DoubledValue(b, n % 2 == 1);
      b := Doubled(b, n % 2 == 1);
    }
  }

  lemma {:induction false} ZeroValue()
    ensures Value(0) == 0
  {}

  lemma {:induction false} ByteThroughBits(n: nat)
    requires n < 256
    ensures (n as bv8) as int == n
  {
    var b := ByteOfValue(n);
    assert (b as int) as bv8 == b;
  }

  lemma {:induction false} LowValue(n: nat)
    ensures Value(LowByte(n)) == n % 256
  {
    ByteThroughBits(n % 256);
  }

  lemma {:induction false} LowOfValue(b: bv8, n: nat)
    requires n % 256 == Value(b)
    ensures LowByte(n) == b
  {}

  /** The number these bytes spell, most significant first. */
  function Spelled(b: seq<bv8>): nat {
    if |b| == 0 then 0 else 256 * Spelled(b[..|b| - 1]) + Value(b[|b| - 1])
  }

  lemma {:induction false} SpelledLast(b: seq<bv8>)
    requires 0 < |b|
    ensures LowByte(Spelled(b)) == b[|b| - 1] && Spelled(b) / 256 == Spelled(b[..|b| - 1])
  {
    hide LowByte, Value;
    LowOfValue(b[|b| - 1], Spelled(b));
  }

  /** The four and the eight bytes of the number they spell. */
  lemma {:induction false} SpelledFour(b: seq<bv8>)
    requires |b| == 4
    ensures var n := Spelled(b);
      b == [LowByte(n / 0x100_0000), LowByte(n / 0x1_0000), LowByte(n / 0x100), LowByte(n)]
    ensures Spelled(b) / 0x1_0000_0000 == 0
  {
    hide LowByte, Spelled;
    SpelledLast(b);
    SpelledLast(b[..3]);
    SpelledLast(b[..2]);
    SpelledLast(b[..1]);
    assert b[..3][..2] == b[..2] && b[..2][..1] == b[..1] && b[..1][..0] == [];
    NoBytes();
  }

  lemma {:induction false} SpelledMore(b: seq<bv8>, x: bv8)
    ensures Spelled(b + [x]) == 256 * Spelled(b) + Value(x)
  {
    hide Value;
    assert (b + [x])[..|b|] == b;
  }

  lemma {:induction false} NoBytes()
    ensures Spelled([]) == 0
  {}

  lemma {:induction false} SpelledEight(b: seq<bv8>)
    requires |b| == 8
    ensures var n := Spelled(b); var h := n / 0x1_0000_0000;
      b == [LowByte(h / 0x100_0000), LowByte(h / 0x1_0000), LowByte(h / 0x100), LowByte(h),
            LowByte(n / 0x100_0000), LowByte(n / 0x1_0000), LowByte(n / 0x100), LowByte(n)]
  {
    hide LowByte, Spelled;
    SpelledLast(b);
    SpelledLast(b[..7]);
    SpelledLast(b[..6]);
    SpelledLast(b[..5]);
    SpelledFour(b[..4]);
    assert b[..7][..6] == b[..6] && b[..6][..5] == b[..5] && b[..5][..4] == b[..4];
    var n := Spelled(b);
    assert n / 0x1_0000_0000 == Spelled(b[..4]);
    assert b == b[..4] + [b[4], b[5], b[6], b[7]];
  }
}
