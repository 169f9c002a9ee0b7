// components/utils/ln_mem_pool.h: fixed-size chunks, each with an id byte and a flag byte in front,
// and a stack of the free ones. An address is an offset from mem_base.
module MemPool {
  import opened ByteValues

  const FLAG_ALLOC: bv8 := 0xAA
  const FLAG_FREE: bv8 := 0x55
  const INFO_SIZE: nat := 2

  datatype Ptr = Null | At(offset: nat)

  predicate Distinct(s: seq<nat>) { forall i, j | 0 <= i < j < |s| :: s[i] != s[j] }

  function ChunkId(i: nat): bv8 { LowByte(i) }

  function Numbers(n: nat): (s: seq<nat>)
    ensures |s| == n && forall i | 0 <= i < n :: s[i] == i
  {
    seq(n, i => i)
  }

  ghost function Elements(s: seq<nat>): set<nat> { set i: nat | i in s }

  lemma {:induction false} ElementsSize(s: seq<nat>)
    requires Distinct(s)
    ensures |Elements(s)| == |s|
    decreases |s|
  {
    if |s| == 0 {
      assert Elements(s) == {};
    } else {
      var front, last := s[..|s| - 1], s[|s| - 1];
      ElementsSize(front);
      assert s == front + [last];
      assert Elements(s) == Elements(front) + {last};
    }
  }

  class Pool {
    const totalChunkCnt: nat
    const chunkSize: nat
    const mem: array<bv8>
    const freeChunkPtr: array<nat>
    var freeChunkCnt: nat
    /** The chunks on the free stack, bottom first. */
    ghost var free: seq<nat>

    /** Where chunk i starts. */
    function Off(i: nat): nat { i * chunkSize }

    ghost predicate Shape() {
      && totalChunkCnt <= 0xFFFF && INFO_SIZE <= chunkSize
      && mem.Length == Off(totalChunkCnt) && freeChunkPtr.Length == totalChunkCnt
      && mem as object != freeChunkPtr
    }

    lemma {:induction false} OffAscends(i: nat, j: nat)
      requires i < j
      ensures Off(i) + chunkSize <= Off(j)
      decreases j
    {
      hide Off;
      OffSteps(j - 1);
      if i < j - 1 {
        OffAscends(i, j - 1);
      }
    }

    /** Chunks are consecutive: different chunks do not overlap, and every chunk is inside the pool. */
    lemma {:induction false} Layout()
      requires Shape()
      ensures forall i: nat | i < totalChunkCnt :: Off(i) + chunkSize <= mem.Length
      ensures forall i: nat, j: nat | i < j :: Off(i) + chunkSize <= Off(j)
    {
      hide Off;
      forall i: nat, j: nat | i < j
        ensures Off(i) + chunkSize <= Off(j)
      {
        OffAscends(i, j);
      }
    }

    lemma {:induction false} OffSteps(i: nat)
      ensures Off(0) == 0 && Off(i + 1) == Off(i) + chunkSize
    {}

    /** Every chunk header says what the free stack says. */
    ghost predicate Valid()
      reads this, mem, freeChunkPtr
    {
      && Shape()
      && freeChunkCnt == |free| <= totalChunkCnt
      && Distinct(free)
      && (forall i: nat | i < totalChunkCnt :: Off(i) + 1 < mem.Length && mem[Off(i)] == ChunkId(i))
      && (forall i: nat | i < totalChunkCnt ::
            Off(i) + 1 < mem.Length && mem[Off(i) + 1] == if i in free then FLAG_FREE else FLAG_ALLOC)
      && (forall k | 0 <= k < |free| :: free[k] < totalChunkCnt && freeChunkPtr[k] == Off(free[k]))
    }

    /** The chunks clients hold. */
    ghost function Held(): set<nat>
      reads this
    {
      Elements(Numbers(totalChunkCnt)) - Elements(free)
    }

    /** Free and held chunks together are all chunks. */
    lemma {:induction false} Conservation()
      requires Valid()
      ensures freeChunkCnt + |Held()| == totalChunkCnt
    {
      var all := Numbers(totalChunkCnt);
      ElementsSize(free);
      ElementsSize(all);
      forall i | i in free
        ensures i in all
      {
        assert all[i] == i;
      }
      assert Elements(all) == Held() + Elements(free);
    }

    constructor (total: nat, size: nat)
      requires total <= 0xFFFF && INFO_SIZE <= size
      ensures Shape() && totalChunkCnt == total && chunkSize == size && fresh(mem) && fresh(freeChunkPtr)
    {
      totalChunkCnt, chunkSize := total, size;
      mem := new bv8[total * size];
      freeChunkPtr := new nat[total];
      freeChunkCnt, free := 0, [];
    }

    /** The header of a chunk being handed to the free stack for the first time. */
    method PutHeader(chunk: nat, i: nat)
      requires chunk + 1 < mem.Length
      modifies mem
      ensures mem[chunk] == ChunkId(i) && mem[chunk + 1] == FLAG_FREE
      ensures forall k | 0 <= k < mem.Length && !(chunk <= k <= chunk + 1) :: mem[k] == old(mem[k])
    {
      mem[chunk] := ChunkId(i);
      mem[chunk + 1] := FLAG_FREE;
    }

    method Init()
      requires Shape()
      modifies this, mem, freeChunkPtr
      ensures Valid() && free == Numbers(totalChunkCnt)
      ensures forall i: nat | i < totalChunkCnt :: Off(i) < mem.Length && Value(mem[Off(i)]) == i % 256
    {
      hide ChunkId, Off;
      Layout();
      OffSteps(0);
      var chunk := 0;
      freeChunkCnt, free := 0, [];
      for i := 0 to totalChunkCnt
        invariant chunk == Off(i) && freeChunkCnt == i && free == Numbers(i)
        invariant forall k: nat | k < i ::
          Off(k) + 1 < mem.Length && mem[Off(k)] == ChunkId(k) && mem[Off(k) + 1] == FLAG_FREE
        invariant forall k: nat | k < i :: freeChunkPtr[k] == Off(k)
      {
        PutHeader(chunk, i);
        freeChunkPtr[freeChunkCnt] := chunk;
        freeChunkCnt := freeChunkCnt + 1;
        free := free + [i];
        OffSteps(i);
        chunk := chunk + chunkSize;
      }
      InitValid();
      forall i: nat | i < totalChunkCnt
        ensures Off(i) < mem.Length && Value(mem[Off(i)]) == i % 256
      {
        IdValue(i);
      }
    }

    lemma {:induction false} IdValue(i: nat)
      ensures Value(ChunkId(i)) == i % 256
    {
      LowValue(i);
    }

    /** All chunks flagged FREE and stacked in order are a valid pool. */
    lemma {:induction false} InitValid()
      requires Shape() && freeChunkCnt == totalChunkCnt && free == Numbers(totalChunkCnt)
      requires forall k: nat | k < totalChunkCnt ::
        Off(k) + 1 < mem.Length && mem[Off(k)] == ChunkId(k) && mem[Off(k) + 1] == FLAG_FREE
      requires forall k: nat | k < totalChunkCnt :: freeChunkPtr[k] == Off(k)
      ensures Valid()
    {
      hide ChunkId, Off;
      assert forall i: nat | i < totalChunkCnt :: free[i] == i;
      assert forall i: nat | i < totalChunkCnt :: Off(i) + 1 < mem.Length && mem[Off(i)] == ChunkId(i);
      assert forall k | 0 <= k < |free| :: free[k] < totalChunkCnt;
      assert forall k | 0 <= k < |free| :: freeChunkPtr[k] == Off(free[k]);
      assert Distinct(free);
    }

    /** Takes the top of the free stack, never a held chunk; the flag-error branch cannot be reached. */
    method Alloc() returns (r: Ptr)
      requires Valid()
      modifies this, mem
      ensures Valid()
      ensures old(free) == [] ==> r == Null && free == [] && mem[..] == old(mem[..])
      ensures old(free) != [] ==>
        var i := old(free)[|old(free)| - 1];
        && r == At(Off(i) + 2) && i !in old(Held())
        && free == old(free)[..|old(free)| - 1] && Held() == old(Held()) + {i}
        && Off(i) + 1 < mem.Length && mem[..] == old(mem[..])[Off(i) + 1 := 0xAA]
    {
      hide ChunkId, Off, Elements;
      Layout();
      if freeChunkCnt == 0 {
        return Null;
      }
      freeChunkCnt := freeChunkCnt - 1;
      var chunk := freeChunkPtr[freeChunkCnt];
      ghost var i := free[freeChunkCnt];
      HeldMeans(i);
      if mem[chunk + 1] == FLAG_FREE {
        mem[chunk + 1] := FLAG_ALLOC;
        free := free[..freeChunkCnt];
        assert Numbers(totalChunkCnt)[i] == i;
        HeldAfterPop(Numbers(totalChunkCnt), old(free), i);
        chunk := chunk + INFO_SIZE;
      } else {
        assert false;
      }
      return At(chunk);
    }

    /**
     * Gives back the chunk of an address that came from Alloc: TRUE if it is held; for a repeated free FALSE with
     * nothing changed. The index-error branch cannot be reached.
     */
    method Free(addr: Ptr, ghost i: nat) returns (ok: bool)
      requires Valid()
      requires addr.At? ==> i < totalChunkCnt && addr.offset == Off(i) + INFO_SIZE
      modifies this, mem, freeChunkPtr
      ensures Valid()
      ensures ok == (addr.At? && i in old(Held()))
      ensures free == if ok then old(free) + [i] else old(free)
      ensures ok ==> Held() == old(Held()) - {i}
      ensures ok ==> Off(i) + 1 < mem.Length && mem[..] == old(mem[..])[Off(i) + 1 := 0x55]
      ensures !ok ==> mem[..] == old(mem[..]) && freeChunkPtr[..] == old(freeChunkPtr[..])
      ensures !ok ==> freeChunkCnt == old(freeChunkCnt)
    {
      hide ChunkId, Off, Elements;
      if addr == Null {
        return false;
      }
      Layout();
      HeldMeans(i);
      var chunk := addr.offset - INFO_SIZE;
      if mem[chunk + 1] != FLAG_ALLOC {
        return false;
      }
      Conservation();
      HeldNonempty(i);
      if freeChunkCnt >= totalChunkCnt {
        assert false;
      }
      freeChunkPtr[freeChunkCnt] := chunk;
      freeChunkCnt := freeChunkCnt + 1;
      mem[chunk + 1] := FLAG_FREE;
      free := free + [i];
      HeldAfterPush(Numbers(totalChunkCnt), old(free), i);
      return true;
    }

    lemma {:induction false} HeldMeans(i: nat)
      requires i < totalChunkCnt
      ensures i in Held() <==> i !in free
    {
      assert Numbers(totalChunkCnt)[i] == i;
    }

    lemma {:induction false} HeldNonempty(i: nat)
      requires i in Held()
      ensures |Held()| > 0
    {}

    /** A client may write anything behind the header of any chunk. */
    method WritePayload(i: nat, d: nat, v: bv8)
      requires Valid() && i < totalChunkCnt && INFO_SIZE <= d < chunkSize
      modifies mem
      ensures Valid() && Off(i) + d < mem.Length && mem[..] == old(mem[..])[Off(i) + d := v]
    {
      hide ChunkId, Off;
      Layout();
      mem[Off(i) + d] := v;
    }
  }

  lemma {:induction false} HeldAfterPop(all: seq<nat>, free: seq<nat>, i: nat)
    requires Distinct(free) && 0 < |free| && i == free[|free| - 1] && i in all
    ensures i !in free[..|free| - 1]
    ensures Elements(all) - Elements(free[..|free| - 1]) == Elements(all) - Elements(free) + {i}
  {
    assert free == free[..|free| - 1] + [i];
  }

  lemma {:induction false} HeldAfterPush(all: seq<nat>, free: seq<nat>, i: nat)
    ensures Elements(all) - Elements(free + [i]) == Elements(all) - Elements(free) - {i}
  {}
}
