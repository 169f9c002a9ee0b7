// The software branch of components/utils/ln_sha1.c, little-endian build.
module Sha1Transform {
  import opened Sha1Spec

  // --- the rewritten round functions (ln_sha1.c:32-53) ---

  function ChFast(w: bv32, x: bv32, y: bv32): bv32 { (w & (x ^ y)) ^ y }

  function MajFast(w: bv32, x: bv32, y: bv32): bv32 { ((w | x) & y) | (w & x) }

  lemma {:induction false} ChIdentity(w: bv32, x: bv32, y: bv32)
    ensures (w & (x ^ y)) ^ y == (w & x) | (!w & y)
  {}

  lemma {:induction false} MajIdentity(w: bv32, x: bv32, y: bv32)
    ensures ((w | x) & y) | (w & x) == (w & x) | (w & y) | (x & y)
  {}

  lemma {:induction false} ChRewritten(w: bv32, x: bv32, y: bv32)
    ensures ChFast(w, x, y) == Ch(w, x, y)
  {
    ChIdentity(w, x, y);
  }

  lemma {:induction false} MajRewritten(w: bv32, x: bv32, y: bv32)
    ensures MajFast(w, x, y) == Maj(w, x, y)
  {
    MajIdentity(w, x, y);
  }

  /** A word of the workspace as memcpy leaves it on a little-endian machine. */
  function LittleEndian(b0: bv8, b1: bv8, b2: bv8, b3: bv8): bv32 {
    (b0 as bv32) | ((b1 as bv32) << 8) | ((b2 as bv32) << 16) | ((b3 as bv32) << 24)
  }

  /** The byte swap inside blk0. */
  function Swap(x: bv32): bv32 {
    (((x << 24) | (x >> 8)) & 0xFF00FF00) | (((x << 8) | (x >> 24)) & 0x00FF00FF)
  }

  lemma {:induction false} SwapLoads(b0: bv8, b1: bv8, b2: bv8, b3: bv8)
    ensures Swap(LittleEndian(b0, b1, b2, b3)) == BigEndian(b0, b1, b2, b3)
  {}

  /** z += f + blk + k + rol(v, 5), in the macro's order. */
  function Accumulate(z: bv32, f: bv32, w: bv32, k: bv32, v: bv32): bv32 { z + (f + w + k + Rol5(v)) }

  lemma {:induction false} AccumulateIsTemp(z: bv32, f: bv32, w: bv32, k: bv32, v: bv32)
    ensures Accumulate(z, f, w, k, v) == Temp(v, f, z, w, k)
  {
    hide Rol5;
  }

  /** The workspace before step t: schedule words t-16..t-1 in their circular places, raw words not yet reached. */
  ghost predicate Workspace(l: seq<bv32>, words: seq<bv32>, t: nat)
    requires |words| == 16
  {
    && |l| == 16
    && (forall k | t <= k < 16 :: Swap(l[k]) == words[k])
    && (forall k: nat | t - 16 <= k < t :: l[k % 16] == W(words, k))
  }

  /** One macro call R0 .. R4, chosen by the step number; w and z are the names it updates. */
  method R(v: bv32, w: bv32, x: bv32, y: bv32, z: bv32, i: nat, block: array<bv32>, ghost words: seq<bv32>)
    returns (z': bv32, w': bv32)
    requires block.Length == 16 && |words| == 16 && i < 80 && Workspace(block[..], words, i)
    modifies block
    ensures Workspace(block[..], words, i + 1)
    ensures Hash(z', v, w', x, y) == Step(Hash(v, w, x, y, z), i, W(words, i))
  {
    hide Ch, ChFast, Maj, MajFast, Parity, Swap, Expand, Accumulate, Temp, Rol30, W;
    ghost var l := block[..];
    var f;
    if i < 20 {
      f := ChFast(w, x, y);
    } else if i < 40 {
      f := Parity(w, x, y);
    } else if i < 60 {
      f := MajFast(w, x, y);
    } else {
      f := Parity(w, x, y);
    }
    ChRewritten(w, x, y);
    MajRewritten(w, x, y);
    if i < 16 {
      block[i] := Swap(block[i]);
      RawWord(words, i);
    } else {
      ExpandedWord(l, words, i);
      block[i % 16] := Expand(block[(i + 13) % 16], block[(i + 8) % 16], block[(i + 2) % 16], block[i % 16]);
    }
    NextWorkspace(l, block[..], words, i);
    z' := Accumulate(z, f, block[i % 16], K(i), v);
    AccumulateIsTemp(z, f, block[i % 16], K(i), v);
    w' := Rol30(w);
  }

  lemma {:induction false} RawWord(words: seq<bv32>, t: nat)
    requires |words| == 16 && t < 16
    ensures W(words, t) == words[t]
  {}

  lemma {:induction false} ExpandedWord(l: seq<bv32>, words: seq<bv32>, t: nat)
    requires |words| == 16 && 16 <= t && Workspace(l, words, t)
    ensures Expand(l[(t + 13) % 16], l[(t + 8) % 16], l[(t + 2) % 16], l[t % 16]) == W(words, t)
  {
    hide Expand, W, Swap;
    CircularPlaces(t);
    WordStep(words, t);
    assert l[(t - 3) % 16] == W(words, t - 3) && l[(t - 8) % 16] == W(words, t - 8);
    assert l[(t - 14) % 16] == W(words, t - 14) && l[(t - 16) % 16] == W(words, t - 16);
  }

  lemma {:induction false} CircularPlaces(t: nat)
    requires 16 <= t
    ensures (t + 13) % 16 == (t - 3) % 16 && (t + 8) % 16 == (t - 8) % 16
    ensures (t + 2) % 16 == (t - 14) % 16 && t % 16 == (t - 16) % 16
  {}

  lemma {:induction false} WordStep(words: seq<bv32>, t: nat)
    requires |words| == 16 && 16 <= t
    ensures W(words, t) == Expand(W(words, t - 3), W(words, t - 8), W(words, t - 14), W(words, t - 16))
  {
    hide Expand;
  }

  lemma {:induction false} NextWorkspace(l: seq<bv32>, l': seq<bv32>, words: seq<bv32>, t: nat)
    requires |words| == 16 && Workspace(l, words, t)
    requires l' == l[t % 16 := W(words, t)]
    ensures Workspace(l', words, t + 1)
  {
    hide Swap, W;
    forall k: nat | t + 1 - 16 <= k < t + 1
      ensures l'[k % 16] == W(words, k)
    {
      if k != t {
        assert 0 < t - k < 16;
        assert k % 16 != t % 16;
      }
    }
  }

  /** Five consecutive macro calls, after which the names are back in place. */
  method FiveSteps(a0: bv32, b0: bv32, c0: bv32, d0: bv32, e0: bv32, i: nat, block: array<bv32>,
      ghost words: seq<bv32>, ghost h: Hash)
    returns (a: bv32, b: bv32, c: bv32, d: bv32, e: bv32)
    requires block.Length == 16 && |words| == 16 && i + 5 <= 80 && Workspace(block[..], words, i)
    requires Hash(a0, b0, c0, d0, e0) == Steps(h, words, i)
    modifies block
    ensures Workspace(block[..], words, i + 5)
    ensures Hash(a, b, c, d, e) == Steps(h, words, i + 5)
  {
    hide Step, Steps, W, Workspace;
    a, b, c, d, e := a0, b0, c0, d0, e0;
    NextStep(h, words, i);
    e, b := R(a, b, c, d, e, i, block, words);
    NextStep(h, words, i + 1);
    d, a := R(e, a, b, c, d, i + 1, block, words);
    NextStep(h, words, i + 2);
    c, e := R(d, e, a, b, c, i + 2, block, words);
    NextStep(h, words, i + 3);
    b, d := R(c, d, e, a, b, i + 3, block, words);
    NextStep(h, words, i + 4);
    a, c := R(b, c, d, e, a, i + 4, block, words);
  }

  /** ln_sha1_transform. The unrolled calls rotate the five names, so they repeat every five steps. */
  method Transform(state: array<bv32>, buffer: seq<bv8>)
    requires state.Length == 5 && |buffer| == 64
    modifies state
    ensures ArrayHash(state[..]) == Compress(old(ArrayHash(state[..])), buffer)
  {
    hide Steps, Workspace, BlockWords, AddWord;
    ghost var words, h := BlockWords(buffer), ArrayHash(state[..]);
    var block := LoadBlock(buffer);
    var a, b, c, d, e := state[0], state[1], state[2], state[3], state[4];
    NoSteps(h, words);
    for g := 0 to 16
      invariant Workspace(block[..], words, 5 * g)
      invariant state[..] == old(state[..])
      invariant Hash(a, b, c, d, e) == Steps(h, words, 5 * g)
    {
      a, b, c, d, e := FiveSteps(a, b, c, d, e, 5 * g, block, words, h);
    }
    state[0] := AddWord(state[0], a);
    state[1] := AddWord(state[1], b);
    state[2] := AddWord(state[2], c);
    state[3] := AddWord(state[3], d);
    state[4] := AddWord(state[4], e);
  }

  /** memcpy(block, buffer, 64) into the word view of the workspace. */
  method LoadBlock(buffer: seq<bv8>) returns (block: array<bv32>)
    requires |buffer| == 64
    ensures fresh(block) && block.Length == 16 && Workspace(block[..], BlockWords(buffer), 0)
  {
    hide Swap, LittleEndian, BigEndian;
    block := new bv32[16];
    for k := 0 to 16
      invariant forall n | 0 <= n < k :: Swap(block[n]) == BlockWords(buffer)[n]
    {
      block[k] := LittleEndian(buffer[4 * k], buffer[4 * k + 1], buffer[4 * k + 2], buffer[4 * k + 3]);
      SwapLoads(buffer[4 * k], buffer[4 * k + 1], buffer[4 * k + 2], buffer[4 * k + 3]);
    }
  }

  lemma {:induction false} NoSteps(h: Hash, words: seq<bv32>)
    requires |words| == 16
    ensures Steps(h, words, 0) == h
  {}

  lemma {:induction false} NextStep(h: Hash, words: seq<bv32>, t: nat)
    requires |words| == 16
    ensures Steps(h, words, t + 1) == Step(Steps(h, words, t), t, W(words, t))
  {
    hide Step, W;
  }

  function ArrayHash(s: seq<bv32>): Hash
    requires |s| == 5
  {
    Hash(s[0], s[1], s[2], s[3], s[4])
  }
}
