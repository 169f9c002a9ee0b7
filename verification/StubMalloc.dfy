// components/libc/stub_malloc.c: a pool of equal blocks under a table of run lengths. The block size and
// the number of blocks are parameters; an address is an offset from the base of the pool.
module StubMalloc {
  const INVALID_ADDR: nat := 0xFFFFFFFF
  const ERR_OK: nat := 0
  const ERR_RES: nat := 1
  const ERR_INVALID: nat := 2

  datatype Ptr = Null | At(offset: nat)

  // --- the table and the live runs it stands for ---

  /** Runs are nonempty, inside the table, and pairwise disjoint. */
  ghost predicate Runs(live: map<nat, nat>, cnt: nat) {
    && (forall b | b in live :: 0 < live[b] && b + live[b] <= cnt)
    && (forall a, b | a in live && b in live && a < b :: a + live[a] <= b)
  }

  ghost predicate InRun(live: map<nat, nat>, b: nat, c: nat) { b in live && b <= c < b + live[b] }

  /** Every cell of a live run holds that run's length; every other cell is 0. */
  ghost predicate TableOf(t: seq<nat>, live: map<nat, nat>) {
    && Runs(live, |t|)
    && (forall b, c: nat | InRun(live, b, c) :: t[c] == live[b])
    && (forall c: nat | c < |t| && t[c] != 0 :: exists b :: InRun(live, b, c))
  }

  /** The live runs determine the table. */
  lemma {:induction false} TableUnique(t: seq<nat>, u: seq<nat>, live: map<nat, nat>)
    requires |t| == |u| && TableOf(t, live) && TableOf(u, live)
    ensures t == u
  {
    forall c: nat | c < |t|
      ensures t[c] == u[c]
    {
      if exists b :: InRun(live, b, c) {
        var b :| InRun(live, b, c);
      } else {
        assert t[c] == 0 && u[c] == 0;
      }
    }
  }

  lemma {:induction false} BaseCells(t: seq<nat>, live: map<nat, nat>)
    requires TableOf(t, live)
    ensures forall b | b in live :: b < |t| && t[b] == live[b] > 0
  {
    forall b | b in live
      ensures b < |t| && t[b] == live[b] > 0
    {
      assert InRun(live, b, b);
    }
  }

  lemma {:induction false} FreeCell(t: seq<nat>, live: map<nat, nat>, b: nat, c: nat)
    requires TableOf(t, live) && b in live && c < |t| && t[c] == 0
    ensures !InRun(live, b, c)
  {}

  predicate FreeRun(t: seq<nat>, b: nat, n: nat) { b + n <= |t| && forall c | b <= c < b + n :: t[c] == 0 }

  /** Cells b .. b + n set to v. */
  function Filled(t: seq<nat>, b: nat, n: nat, v: nat): (u: seq<nat>)
    requires b + n <= |t|
    ensures |u| == |t|
  {
    seq(|t|, c requires 0 <= c < |t| => if b <= c < b + n then v else t[c])
  }

  lemma {:induction false} AddRun(t: seq<nat>, live: map<nat, nat>, b: nat, n: nat)
    requires TableOf(t, live) && 0 < n && FreeRun(t, b, n)
    ensures b !in live && TableOf(Filled(t, b, n, n), live[b := n])
  {
    var u, live' := Filled(t, b, n, n), live[b := n];
    NotLive(t, live, b, n);
    RunsApart(t, live, b, n);
    AddedRuns(live, live', |t|, b, n);
    AddedCovers(t, u, live, live', b, n);
    AddedCells(t, u, live, live', b, n);
  }

  lemma {:induction false} AddedRuns(live: map<nat, nat>, live': map<nat, nat>, cnt: nat, b: nat, n: nat)
    requires Runs(live, cnt) && 0 < n && b + n <= cnt && live' == live[b := n]
    requires forall a | a in live :: a + live[a] <= b || b + n <= a
    ensures Runs(live', cnt)
  {
    assert forall a | a in live' :: a == b || (a in live && live'[a] == live[a]);
  }

  lemma {:induction false} NotLive(t: seq<nat>, live: map<nat, nat>, b: nat, n: nat)
    requires TableOf(t, live) && 0 < n && FreeRun(t, b, n)
    ensures b !in live
  {
    BaseCells(t, live);
  }

  lemma {:induction false} AddedCells(t: seq<nat>, u: seq<nat>, live: map<nat, nat>, live': map<nat, nat>, b: nat, n: nat)
    requires TableOf(t, live) && FreeRun(t, b, n) && live' == live[b := n] && Runs(live', |t|)
    requires b !in live && u == Filled(t, b, n, n)
    ensures forall a, c: nat | InRun(live', a, c) :: u[c] == live'[a]
  {
    forall a, c: nat | InRun(live', a, c)
      ensures u[c] == live'[a]
    {
      if a != b {
        assert InRun(live, a, c);
      }
    }
  }

  lemma {:induction false} AddedCovers(t: seq<nat>, u: seq<nat>, live: map<nat, nat>, live': map<nat, nat>, b: nat, n: nat)
    requires TableOf(t, live) && FreeRun(t, b, n) && live' == live[b := n] && b !in live && u == Filled(t, b, n, n)
    ensures forall c: nat | c < |t| && u[c] != 0 :: exists a :: InRun(live', a, c)
  {
    forall c: nat | c < |t| && u[c] != 0
      ensures exists a :: InRun(live', a, c)
    {
      if b <= c < b + n {
        assert InRun(live', b, c);
      } else {
        var a :| InRun(live, a, c);
        assert InRun(live', a, c);
      }
    }
  }

  lemma {:induction false} RunsApart(t: seq<nat>, live: map<nat, nat>, b: nat, n: nat)
    requires TableOf(t, live) && 0 < n && FreeRun(t, b, n)
    ensures forall a | a in live :: a + live[a] <= b || b + n <= a
  {
    BaseCells(t, live);
    forall a | a in live
      ensures a + live[a] <= b || b + n <= a
    {
      FreeCell(t, live, a, b);
    }
  }

  lemma {:induction false} RemoveRun(t: seq<nat>, live: map<nat, nat>, b: nat)
    requires TableOf(t, live) && b in live
    ensures b + live[b] <= |t| && t[b] == live[b] && TableOf(Filled(t, b, live[b], 0), live - {b})
  {
    var n := live[b];
    var u, live' := Filled(t, b, n, 0), live - {b};
    assert InRun(live, b, b);
    forall c: nat | c < |u| && u[c] != 0
      ensures exists a :: InRun(live', a, c)
    {
      var a :| InRun(live, a, c);
      assert InRun(live', a, c);
    }
    forall a, c: nat | InRun(live', a, c)
      ensures u[c] == live'[a]
    {
      assert InRun(live, a, c);
    }
  }

  lemma {:induction false} LiveInside(t: seq<nat>, live: map<nat, nat>, b: nat)
    requires TableOf(t, live) && b in live
    ensures b + live[b] <= |t|
  {}

  /** A free from cell c clears exactly one live run, or nothing. */
  ghost predicate Freeable(t: seq<nat>, live: map<nat, nat>, c: nat)
    requires c < |t|
  {
    c in live || t[c] == 0
  }

  /**
   * Runs of length n before the cleared cell c do not fit any more: the last would start at c - n, inside the run of
   * length n that ends at b, and so on down.
   */
  lemma {:induction false} NoTiling(t: seq<nat>, live: map<nat, nat>, u: seq<nat>, live': map<nat, nat>,
      b: nat, c: nat, a: nat)
    requires TableOf(t, live) && TableOf(u, live') && |u| == |t| && b in live && b < c < b + live[b]
    requires forall q | 0 <= q < c :: u[q] == t[q]
    requires InRun(live', a, c - 1) && a + live'[a] <= c
    ensures false
    decreases b
  {
    var n := live[b];
    assert InRun(live, b, c - 1);
    assert live'[a] == n && a == c - n;
    assert InRun(live', a, b - 1);
    assert t[b - 1] == n;
    var b2 :| InRun(live, b2, b - 1);
    assert live[b2] == n && b2 == b - n;
    assert InRun(live, b2, c - n - 1);
    assert u[c - n - 1] == n;
    var a2 :| InRun(live', a2, c - n - 1);
    NoTiling(t, live, u, live', b2, c - n, a2);
  }

  /** The table after the clearing loop from cell c, which may go on behind the end of the table. */
  function Swept(t: seq<nat>, c: nat): (u: seq<nat>)
    requires c < |t|
    ensures |u| == |t|
  {
    Filled(t, c, Min(t[c], |t| - c), 0)
  }

  /**
   * After a free the table is again a table of runs, if and only if it began at a live base or a free cell; and then
   * the clearing loop stays inside the table.
   */
  lemma {:induction false} FreeExactly(t: seq<nat>, live: map<nat, nat>, c: nat)
    requires TableOf(t, live) && c < |t|
    ensures (exists live' :: TableOf(Swept(t, c), live')) <==> Freeable(t, live, c)
    ensures Freeable(t, live, c) ==> c + t[c] <= |t| && TableOf(Swept(t, c), live - {c})
  {
    var u := Swept(t, c);
    if c in live {
      RemoveRun(t, live, c);
    } else if t[c] == 0 {
      FillNothing(t, c);
      assert live - {c} == live;
    } else {
      forall live'
        ensures !TableOf(u, live')
      {
        if TableOf(u, live') {
          InteriorFree(t, live, c, live');
        }
      }
    }
  }

  lemma {:induction false} InteriorFree(t: seq<nat>, live: map<nat, nat>, c: nat, live': map<nat, nat>)
    requires TableOf(t, live) && c < |t| && c !in live && t[c] != 0 && TableOf(Swept(t, c), live')
    ensures false
  {
    var u := Swept(t, c);
    assert u[c] == 0;
    var b: nat :| InRun(live, b, c);
    assert b in live && b <= c && b != c;
    assert InRun(live, b, c - 1);
    assert u[c - 1] == t[c - 1] == live[b];
    var a: nat :| InRun(live', a, c - 1);
    if a + live'[a] > c {
      assert InRun(live', a, c);
    } else {
      NoTiling(t, live, u, live', b, c, a);
    }
  }

  /** Freeing what was just allocated gives the old table back, cell for cell. */
  lemma {:induction false} FreeUndoesAlloc(t: seq<nat>, live: map<nat, nat>, b: nat, n: nat)
    requires TableOf(t, live) && 0 < n && FreeRun(t, b, n)
    ensures live[b := n] - {b} == live && Filled(Filled(t, b, n, n), b, n, 0) == t
  {
    AddRun(t, live, b, n);
    RemoveRun(Filled(t, b, n, n), live[b := n], b);
    assert live[b := n] - {b} == live;
    TableUnique(Filled(Filled(t, b, n, n), b, n, 0), t, live);
  }

  /** Blocks needed for a size. */
  function Blocks(size: nat, blkSize: nat): nat
    requires 0 < blkSize
  {
    if size % blkSize == 0 then size / blkSize else size / blkSize + 1
  }

  lemma {:induction false} BlocksCover(size: nat, blkSize: nat)
    requires 0 < blkSize
    ensures size <= Blocks(size, blkSize) * blkSize < size + blkSize
  {
    assert size == size / blkSize * blkSize + size % blkSize;
  }

  lemma {:induction false} BlocksOf(size: nat, blkSize: nat)
    requires 0 < blkSize
    ensures Blocks(size, blkSize) == if size % blkSize == 0 then size / blkSize else size / blkSize + 1
    ensures 0 < size ==> 0 < Blocks(size, blkSize)
  {
    BlocksCover(size, blkSize);
  }

  lemma {:induction false} EmptyTable(t: seq<nat>)
    requires TableOf(t, map[])
    ensures t == seq(|t|, _ => 0)
  {
    forall c: nat | c < |t|
      ensures t[c] == 0
    {}
  }

  /** The run an allocation takes: the highest free one, or none. */
  ghost predicate HighestFree(t: seq<nat>, b: nat, n: nat) { FreeRun(t, b, n) && forall a | a > b :: !FreeRun(t, a, n) }

  ghost predicate NoFree(t: seq<nat>, n: nat) { forall a: nat :: !FreeRun(t, a, n) }

  // --- whole runs ---

  datatype Heap = Heap(table: seq<nat>, live: map<nat, nat>)

  /** What Malloc does to table and live runs on success. */
  ghost predicate Allocates(h: Heap, h': Heap, b: nat, n: nat) {
    0 < n && HighestFree(h.table, b, n) && h' == Heap(Filled(h.table, b, n, n), h.live[b := n])
  }

  /** What Free does when given a live base. */
  ghost predicate Frees(h: Heap, h': Heap, b: nat) {
    && b in h.live && b + h.live[b] <= |h.table|
    && h' == Heap(Filled(h.table, b, h.live[b], 0), h.live - {b})
  }

  ghost predicate NextHeap(h: Heap, h': Heap) {
    (exists b, n :: Allocates(h, h', b, n)) || (exists b :: Frees(h, h', b))
  }

  ghost predicate Run(heaps: seq<Heap>, cnt: nat) {
    && 0 < |heaps| && heaps[0] == Heap(seq(cnt, _ => 0), map[])
    && forall i | 0 < i < |heaps| ::
         NextHeap(heaps[i - 1], heaps[i])
  }

  /** In every run that only frees live bases, live runs are disjoint and inside, and the table is exactly theirs. */
  lemma {:induction false} EveryRun(heaps: seq<Heap>, cnt: nat, k: nat)
    requires Run(heaps, cnt) && k < |heaps|
    ensures |heaps[k].table| == cnt && TableOf(heaps[k].table, heaps[k].live)
  {
    if k == 0 {
      EmptyTable(heaps[0].table);
    } else {
      EveryRun(heaps, cnt, k - 1);
      var h, h' := heaps[k - 1], heaps[k];
      hide TableOf, Filled;
      if b, n :| Allocates(h, h', b, n) {
        AddRun(h.table, h.live, b, n);
      } else {
        var b :| Frees(h, h', b);
        RemoveRun(h.table, h.live, b);
      }
    }
  }

  /** The first allocation ends at the end of the pool. */
  lemma {:induction false} FirstAllocation(cnt: nat, n: nat)
    requires 0 < n <= cnt
    ensures Run([Heap(seq(cnt, _ => 0), map[]), Heap(Filled(seq(cnt, _ => 0), cnt - n, n, n), map[cnt - n := n])], cnt)
  {
    var t := seq(cnt, _ => 0);
    var h, h' := Heap(t, map[]), Heap(Filled(t, cnt - n, n, n), map[cnt - n := n]);
    assert map[][cnt - n := n] == map[cnt - n := n];
    assert Allocates(h, h', cnt - n, n);
    assert NextHeap(h, h');
  }

  /** Blocks of 1 and then of 2 in a pool of 3: a block inside a run, from which a free stays inside the table. */
  lemma {:induction false} InteriorReachable()
    ensures exists heaps: seq<Heap> :: Run(heaps, 3) && |heaps| == 3 && heaps[2].table == [2, 2, 1]
              && !Freeable(heaps[2].table, heaps[2].live, 1) && 1 + heaps[2].table[1] <= 3
  {
    FirstAllocation(3, 1);
    var h0, h1 := Heap(seq(3, _ => 0), map[]), Heap(Filled(seq(3, _ => 0), 2, 1, 1), map[2 := 1]);
    var h2 := Heap(Filled(h1.table, 0, 2, 2), h1.live[0 := 2]);
    assert h1.table == [0, 0, 1] && h2.table == [2, 2, 1];
    assert FreeRun(h1.table, 0, 2) && h1.table[2] == 1;
    forall a: nat | a > 0
      ensures !FreeRun(h1.table, a, 2)
    {
      assert a == 1 ==> h1.table[a + 1] == 1;
    }
    assert Allocates(h1, h2, 0, 2);
    assert NextHeap([h0, h1][0], [h0, h1][1]);
    assert NextHeap(h1, h2);
    assert Run([h0, h1, h2], 3);
  }

  /** One block of 2 in a pool of 2: from its second cell the clearing loop leaves the table. */
  lemma {:induction false} SweepLeavesTable()
    ensures exists heaps: seq<Heap> :: Run(heaps, 2) && |heaps| == 2 && heaps[1].table == [2, 2]
              && 1 + heaps[1].table[1] > 2
  {
    FirstAllocation(2, 2);
    assert Filled(seq(2, _ => 0), 0, 2, 2) == [2, 2];
  }

  // --- when a reallocation reads behind the pool ---

  /** The new size fits somewhere, and from the old address it reaches beyond the end of the pool. */
  ghost predicate ReadsBehind(t: seq<nat>, base: nat, size: nat, blkSize: nat)
    requires 0 < blkSize
  {
    size != 0 && !NoFree(t, Blocks(size, blkSize)) && base * blkSize + size > |t| * blkSize
  }

  lemma {:induction false} RoomBelow(cnt: nat, n: nat, m: nat)
    requires 0 < n <= cnt
    ensures NoFree(Filled(seq(cnt, _ => 0), cnt - n, n, n), m) <==> m > cnt - n
  {
    var t := Filled(seq(cnt, _ => 0), cnt - n, n, n);
    if m <= cnt - n {
      assert FreeRun(t, 0, m);
    } else {
      forall a: nat
        ensures !FreeRun(t, a, m)
      {
        var c := if a < cnt - n then cnt - n else a;
        if a + m <= cnt {
          assert t[c] == n;
        }
      }
    }
  }

  /**
   * Reachable with one allocation: the run of n blocks that ends at the end of the pool. Reallocating it reads behind
   * the pool if and only if it grows and there is room for the new block below.
   */
  lemma {:induction false} TopBlockGrowth(cnt: nat, blkSize: nat, n: nat, size: nat)
    requires 0 < n <= cnt && 0 < blkSize
    ensures var t := Filled(seq(cnt, _ => 0), cnt - n, n, n);
      && (exists heaps: seq<Heap> :: Run(heaps, cnt) && |heaps| == 2 && heaps[1] == Heap(t, map[cnt - n := n]))
      && (ReadsBehind(t, cnt - n, size, blkSize) <==> n * blkSize < size && Blocks(size, blkSize) <= cnt - n)
  {
    var t := Filled(seq(cnt, _ => 0), cnt - n, n, n);
    FirstAllocation(cnt, n);
    var heaps := [Heap(seq(cnt, _ => 0), map[]), Heap(t, map[cnt - n := n])];
    assert Run(heaps, cnt) && heaps[1] == Heap(t, map[cnt - n := n]);
    RoomBelow(cnt, n, Blocks(size, blkSize));
    Distribute(cnt - n, n, blkSize);
  }

  class Pool {
    const blkSize: nat
    const blkCnt: nat
    const mem: array<bv8>
    const memmap: array<nat>
    var memrdy: bool
    ghost var live: map<nat, nat>

    /** Where block i starts. */
    function Off(i: nat): nat { i * blkSize }

    ghost predicate Shape() {
      && 0 < blkSize && 0 < blkCnt && mem.Length == blkCnt * blkSize < INVALID_ADDR
      && memmap.Length == blkCnt && mem as object != memmap
    }

    ghost predicate Valid()
      reads this, memmap
    {
      Shape() && TableOf(memmap[..], live) && (!memrdy ==> live == map[])
    }

    /** Static storage starts as zero. */
    constructor (size: nat, cnt: nat)
      requires 0 < size && 0 < cnt && cnt * size < INVALID_ADDR
      ensures Valid() && !memrdy && live == map[] && blkSize == size && blkCnt == cnt && fresh(mem) && fresh(memmap)
    {
      blkSize, blkCnt := size, cnt;
      mem := new bv8[cnt * size](_ => 0);
      memmap := new nat[cnt](_ => 0);
      memrdy, live := false, map[];
    }

    method Init()
      requires Shape()
      modifies memmap, this`memrdy
      ensures memrdy && memmap[..] == seq(blkCnt, _ => 0)
    {
      for i := 0 to blkCnt
        invariant forall c | 0 <= c < i :: memmap[c] == 0
      {
        memmap[i] := 0;
      }
      memrdy := true;
    }

    method Fill(b: nat, n: nat, v: nat)
      requires Shape() && b + n <= blkCnt
      modifies memmap
      ensures memmap[..] == Filled(old(memmap[..]), b, n, v)
    {
      for i := 0 to n
        invariant forall c | 0 <= c < blkCnt :: memmap[c] == if b <= c < b + i then v else old(memmap[c])
      {
        memmap[b + i] := v;
      }
    }

    /**
     * _stub_malloc: scans down and takes the highest run that fits; INVALID_ADDR exactly when there is none.
     * The ghost result is the index of the first block taken.
     */
    method Malloc(size: nat) returns (r: nat, ghost b: nat)
      requires Valid()
      modifies this, memmap
      ensures Valid() && memrdy
      ensures r == INVALID_ADDR <==> size == 0 || NoFree(old(memmap[..]), Blocks(size, blkSize))
      ensures r == INVALID_ADDR ==> live == old(live) && memmap[..] == old(memmap[..])
      ensures r != INVALID_ADDR ==>
        var n := Blocks(size, blkSize);
        && r == Off(b) && 0 < n && HighestFree(old(memmap[..]), b, n)
        && live == old(live)[b := n] && memmap[..] == Filled(old(memmap[..]), b, n, n)
    {
      hide TableOf, Filled, Blocks;
      ghost var t := memmap[..];
      if !memrdy {
        EmptyTable(t);
        Init();
      }
      BlocksOf(size, blkSize);
      if size == 0 {
        return INVALID_ADDR, 0;
      }
      var nmemb := size / blkSize;
      if size % blkSize != 0 {
        nmemb := nmemb + 1;
      }
      var found, offset := Scan(nmemb, t);
      if !found {
        return INVALID_ADDR, 0;
      }
      Fill(offset, nmemb, nmemb);
      AddRun(t, live, offset, nmemb);
      live := live[offset := nmemb];
      OffsetInside(offset, blkSize, blkCnt);
      return offset * blkSize, offset;
    }

    /** The downward scan: cmemb counts the free cells from offset up. */
    method Scan(nmemb: nat, ghost t: seq<nat>) returns (found: bool, offset: nat)
      requires Shape() && 0 < nmemb && memmap[..] == t
      ensures if found then HighestFree(t, offset, nmemb) else NoFree(t, nmemb)
    {
      var cmemb := 0;
      for i := blkCnt downto 0
        invariant cmemb < nmemb && FreeRun(t, i, cmemb)
        invariant i + cmemb < blkCnt ==> t[i + cmemb] != 0
        invariant forall a | a >= i :: !FreeRun(t, a, nmemb)
      {
        if memmap[i] == 0 {
          cmemb := cmemb + 1;
        } else {
          cmemb := 0;
        }
        if cmemb == nmemb {
          return true, i;
        }
        assert i + cmemb < blkCnt ==> t[i + cmemb] != 0;
      }
      return false, 0;
    }

    /** The clearing loop; end is behind the last cell it writes, and cells behind the table are not modelled. */
    method Sweep(index: nat) returns (ghost end: nat)
      requires Shape() && index < blkCnt
      modifies memmap
      ensures memmap[..] == Swept(old(memmap[..]), index) && end == index + old(memmap[index])
    {
      var nmemb := memmap[index];
      end := index;
      for i := 0 to nmemb
        invariant end == index + i
        invariant forall c | 0 <= c < blkCnt :: memmap[c] == if index <= c < index + i then 0 else old(memmap[c])
      {
        if index + i < blkCnt {
          memmap[index + i] := 0;
        }
        end := index + i + 1;
      }
    }

    /**
     * _stub_mfree. Given an offset into a live run past its first block it leaves a table of no set of runs at all,
     * and the loop leaves the table exactly when index and cell add up to more than its length.
     */
    method Free(offset: nat) returns (r: nat, ghost end: nat)
      requires Valid()
      modifies this, memmap
      ensures Shape() && memrdy
      ensures r == if !old(memrdy) then ERR_RES else if offset < mem.Length then ERR_OK else ERR_INVALID
      ensures var index := offset / blkSize;
        if r == ERR_OK then
          && index < memmap.Length && Off(index) <= offset < Off(index) + blkSize
          && memmap[..] == Swept(old(memmap[..]), index) && live == old(live) - {index}
          && (if Freeable(old(memmap[..]), old(live), index) then Valid() else forall l :: !TableOf(memmap[..], l))
          && (end > memmap.Length <==> index + old(memmap[index]) > memmap.Length)
          && (end > memmap.Length ==> !Freeable(old(memmap[..]), old(live), index))
        else
          Valid() && memmap[..] == old(memmap[..]) && live == old(live) && end == 0
    {
      hide TableOf, Swept, Freeable;
      end := 0;
      if !memrdy {
        EmptyTable(memmap[..]);
        Init();
        return ERR_RES, 0;
      }
      if offset < mem.Length {
        var index := offset / blkSize;
        DivBelow(offset, blkSize, blkCnt);
        DivBounds(offset, blkSize);
        FreeExactly(memmap[..], live, index);
        end := Sweep(index);
        live := live - {index};
        return ERR_OK, end;
      }
      return ERR_INVALID, 0;
    }

    method StubFree(ptr: Ptr)
      requires Valid()
      modifies this, memmap
      ensures Shape() && memrdy == (ptr.At? || old(memrdy))
      ensures if ptr.At? && old(memrdy) && ptr.offset < mem.Length then
                var index := ptr.offset / blkSize;
                && index < memmap.Length && memmap[..] == Swept(old(memmap[..]), index) && live == old(live) - {index}
                && (if Freeable(old(memmap[..]), old(live), index) then Valid() else forall l :: !TableOf(memmap[..], l))
              else
                Valid() && memmap[..] == old(memmap[..]) && live == old(live)
    {
      hide TableOf, Swept, Freeable;
      if ptr == Null {
        return;
      }
      var _, _ := Free(ptr.offset);
    }

    /** The byte at an address, where the bytes behind the pool may be asked for too. */
    function ByteAt(k: nat, behind: seq<bv8>): bv8
      requires k < mem.Length + |behind|
      reads mem
    {
      if k < mem.Length then mem[k] else behind[k - mem.Length]
    }

    /**
     * _stub_memcpy into the pool, forwards one byte at a time: when the destination starts d bytes after the source,
     * what it copies from its own output repeats the first d bytes. The source may reach behind the pool; end is
     * behind the last address read, or 0.
     */
    method Memcpy(des: nat, src: nat, n: nat, behind: seq<bv8>) returns (ghost end: nat)
      requires des + n <= mem.Length && src + n <= mem.Length + |behind|
      modifies mem
      ensures end == if n == 0 then 0 else src + n
      ensures forall j | 0 <= j < n :: mem[des + j] == old(ByteAt(CopiedFrom(des, src, j), behind))
      ensures mem[..des] == old(mem[..des]) && mem[des + n..] == old(mem[des + n..])
    {
      hide CopiedFrom;
      end := 0;
      for i := 0 to n
        invariant end == if i == 0 then 0 else src + i
        invariant forall k | 0 <= k < mem.Length && !(des <= k < des + i) :: mem[k] == old(mem[k])
        invariant forall j | 0 <= j < i :: mem[des + j] == old(ByteAt(CopiedFrom(des, src, j), behind))
      {
        CopiedStep(des, src, i);
        mem[des + i] := ByteAt(src + i, behind);
        end := src + i + 1;
      }
    }

    /**
     * stub_mem_realloc of a live block. It copies the new size from the old address, however short the old block
     * is, and so may read bytes behind the pool. The ghost results are the new run's first block, and what is behind
     * the last address read.
     */
    method Realloc(base: nat, size: nat, behind: seq<bv8>) returns (r: Ptr, ghost b: nat, ghost end: nat)
      requires Valid() && base in live
      requires ReadsBehind(memmap[..], base, size, blkSize) ==> Off(base) + size <= mem.Length + |behind|
      modifies this, memmap, mem
      ensures Valid() && memrdy
      ensures end == if r == Null then 0 else Off(base) + size
      ensures end > mem.Length <==> ReadsBehind(old(memmap[..]), base, size, blkSize)
      ensures r == Null <==> size == 0 || NoFree(old(memmap[..]), Blocks(size, blkSize))
      ensures r == Null ==> live == old(live) && memmap[..] == old(memmap[..]) && mem[..] == old(mem[..])
      ensures r != Null ==>
        && r == At(Off(b)) && Off(b) + size <= mem.Length && b != base
        && HighestFree(old(memmap[..]), b, Blocks(size, blkSize))
        && live == old(live)[b := Blocks(size, blkSize)] - {base}
      ensures r != Null ==>
        var (p, q, kept) := (Off(base), Off(b), Min(size, Off(old(live[base]))));
        p + kept <= mem.Length && mem[q..q + kept] == old(mem[p..p + kept])
      ensures r != Null ==>
        var q := Off(b); mem[..q] == old(mem[..q]) && mem[q + size..] == old(mem[q + size..])
    {
      hide TableOf, Filled, Blocks, HighestFree, NoFree, Off;
      var offset;
      OffIs(base);
      offset, b := Malloc(size);
      if offset == INVALID_ADDR {
        return Null, b, 0;
      }
      PlaceOfRuns(old(memmap[..]), old(live), base, b, Blocks(size, blkSize));
      OffRanges(base, old(live[base]), b, size);
      OldInside(base);
      end := CopyAndFree(offset, base, Off(base), size, Min(size, Off(old(live[base]))), behind);
      return At(offset), b, end;
    }

    /** In bytes: the new run is inside the pool and apart from the old one. */
    lemma {:induction false} OffRanges(base: nat, len: nat, b: nat, size: nat)
      requires Shape() && base < blkCnt && b + Blocks(size, blkSize) <= blkCnt
      requires b + Blocks(size, blkSize) <= base || base + len <= b
      ensures Off(b) + size <= mem.Length && Off(base) < mem.Length
      ensures Off(b) + size <= Off(base) || Off(base) + Off(len) <= Off(b)
    {
      BlocksCover(size, blkSize);
      ByteRanges(base, len, b, Blocks(size, blkSize), blkCnt, size, blkSize);
    }

    lemma {:induction false} OffIs(i: nat)
      requires Shape()
      ensures Off(i) == i * blkSize && mem.Length == |memmap[..]| * blkSize
    {}

    lemma {:induction false} OldInside(base: nat)
      requires Valid() && base in live
      ensures Off(base) + Off(live[base]) <= mem.Length
    {
      Distribute(base, live[base], blkSize);
      MulMono(base + live[base], blkCnt, blkSize);
    }

    /** The copy, then the free of the old block; kept bytes of it are apart from the destination. */
    method CopyAndFree(offset: nat, ghost base: nat, src: nat, size: nat, ghost kept: nat, behind: seq<bv8>)
      returns (ghost end: nat)
      requires Valid() && memrdy && base in live && offset + size <= mem.Length && src + size <= mem.Length + |behind|
      requires src == Off(base) < mem.Length && kept <= size && src + kept <= mem.Length
      requires offset + size <= src || src + kept <= offset
      modifies this, memmap, mem
      ensures Valid() && memrdy && live == old(live) - {base} && end == if size == 0 then 0 else src + size
      ensures mem[..offset] == old(mem[..offset]) && mem[offset + size..] == old(mem[offset + size..])
      ensures mem[offset..offset + kept] == old(mem[src..src + kept])
    {
      hide TableOf;
      ghost var before := mem[..];
      end := Memcpy(offset, src, size, behind);
      KeptPrefix(before, mem[..], src, offset, size, kept);
      DivExact(base, blkSize);
      BaseCells(memmap[..], live);
      LiveInside(memmap[..], live, base);
      StubFree(At(src));
    }

    /** stub_mem_usepercent; the table cells in use, in percent of all cells, rounded down. */
    method UsePercent() returns (r: nat)
      requires Shape() && 100 * blkCnt <= 0xFFFFFFFF
      ensures r == 100 * CountUsed(memmap[..]) / blkCnt && r <= 100
    {
      var used := 0;
      for i := 0 to blkCnt
        invariant used == CountUsed(memmap[..i]) <= i
      {
        assert memmap[..i + 1][..i] == memmap[..i];
        if memmap[i] != 0 {
          used := used + 1;
        }
      }
      assert memmap[..blkCnt] == memmap[..];
      PercentBound(used, blkCnt);
      return used * 100 / blkCnt;
    }
  }

  /** A pool of four 64-byte blocks: a block of 64 bytes grown to 65 is copied from its place up to byte 257 of 256. */
  method GrowthExample() returns (r: Ptr, ghost end: nat)
    ensures r == At(64) && end == 257
  {
    var p := new Pool(64, 4);
    ghost var t := p.memmap[..];
    EmptyTable(t);
    assert FreeRun(t, 3, 1) && Blocks(64, 64) == 1 && Blocks(65, 64) == 2;
    var offset, b := p.Malloc(64);
    assert b == 3 && p.Off(b) == 192;
    ghost var u := p.memmap[..];
    assert u == [0, 0, 0, 1];
    assert FreeRun(u, 1, 2) && u[3] == 1 && !FreeRun(u, 2, 2);
    ghost var b2;
    r, b2, end := p.Realloc(offset / 64, 65, [0]);
    assert HighestFree(u, b2, 2);
    assert b2 == 1;
  }

  /** The byte that ends up at position j of the destination of a forward copy. */
  function CopiedFrom(des: nat, src: nat, j: nat): (k: nat)
    ensures src <= k <= src + j
  {
    if src < des then src + j % (des - src) else src + j
  }

  lemma {:induction false} CopiedStep(des: nat, src: nat, i: nat)
    ensures if src < des <= src + i then CopiedFrom(des, src, i) == CopiedFrom(des, src, src + i - des)
            else CopiedFrom(des, src, i) == src + i
  {
    if src < des {
      var d := des - src;
      if i >= d {
        ModStep(i, d);
      } else {
        DivMod(i, d, 0, i);
      }
    }
  }

  lemma {:induction false} ModStep(x: nat, d: nat)
    requires 0 < d <= x
    ensures x % d == (x - d) % d
  {
    var q, r := (x - d) / d, (x - d) % d;
    assert x - d == d * q + r;
    assert d * (q + 1) == d * q + d;
    DivMod(x, d, q + 1, r);
  }

  lemma {:induction false} DivMod(x: nat, d: nat, q: nat, r: nat)
    requires 0 < d && x == d * q + r && r < d
    ensures x % d == r
  {
    var q' := x / d;
    assert (q' - q) * d == r - x % d;
    if q' > q {
      MulMono(1, q' - q, d);
    } else if q' < q {
      MulMono(1, q - q', d);
    }
  }

  lemma {:induction false} KeptPrefix(before: seq<bv8>, after: seq<bv8>, src: nat, des: nat, size: nat, kept: nat)
    requires |before| == |after| && src + kept <= |before| && des + size <= |before| && kept <= size
    requires des + size <= src || src + kept <= des
    requires forall j | 0 <= j < kept :: after[des + j] == before[CopiedFrom(des, src, j)]
    ensures after[des..des + kept] == before[src..src + kept]
  {
    var x, y := after[des..des + kept], before[src..src + kept];
    forall j | 0 <= j < kept
      ensures x[j] == y[j]
    {
      CopiedStep(des, src, j);
      assert after[des + j] == before[CopiedFrom(des, src, j)];
    }
  }

  function Min(a: nat, b: nat): nat { if a < b then a else b }

  lemma {:induction false} PlaceOfRuns(t: seq<nat>, live: map<nat, nat>, base: nat, b: nat, n: nat)
    requires TableOf(t, live) && base in live && HighestFree(t, b, n) && 0 < n
    ensures b != base && b + n <= |t| && (b + n <= base || base + live[base] <= b) && base < |t|
  {
    RunsApart(t, live, b, n);
    BaseCells(t, live);
  }

  lemma {:induction false} ByteRanges(base: nat, len: nat, b: nat, n: nat, cnt: nat, size: nat, k: nat)
    requires 0 < k && b + n <= cnt && base < cnt && size <= n * k && (b + n <= base || base + len <= b)
    ensures b * k + size <= cnt * k && base * k < cnt * k
    ensures b * k + size <= base * k || base * k + len * k <= b * k
  {
    Distribute(b, n, k);
    Distribute(base, len, k);
    MulMono(b + n, cnt, k);
    OffsetInside(base, k, cnt);
    if base + len <= b {
      MulMono(base + len, b, k);
    } else {
      MulMono(b + n, base, k);
    }
  }

  lemma {:induction false} Distribute(a: nat, b: nat, k: nat)
    ensures (a + b) * k == a * k + b * k
  {}

  // --- cells in use ---

  function CountUsed(t: seq<nat>): nat
    decreases |t|
  {
    if |t| == 0 then 0 else CountUsed(t[..|t| - 1]) + if t[|t| - 1] != 0 then 1 else 0
  }

  lemma {:induction false} CountSet(t: seq<nat>, c: nat, v: nat)
    requires c < |t| && t[c] == 0 && v != 0
    ensures CountUsed(t[c := v]) == CountUsed(t) + 1
    decreases |t|
  {
    if c == |t| - 1 {
      assert t[c := v][..c] == t[..c];
    } else {
      assert t[c := v][..|t| - 1] == t[..|t| - 1][c := v];
      CountSet(t[..|t| - 1], c, v);
    }
  }

  /** An allocation of n blocks raises the count by n; by FreeUndoesAlloc a free lowers it by as much. */
  lemma {:induction false} CountFilled(t: seq<nat>, b: nat, n: nat, v: nat)
    requires FreeRun(t, b, n) && v != 0
    ensures CountUsed(Filled(t, b, n, v)) == CountUsed(t) + n
    decreases n
  {
    if n == 0 {
      assert Filled(t, b, 0, v) == t;
    } else {
      CountFilled(t, b, n - 1, v);
      assert Filled(t, b, n, v) == Filled(t, b, n - 1, v)[b + n - 1 := v];
      CountSet(Filled(t, b, n - 1, v), b + n - 1, v);
    }
  }

  lemma {:induction false} PercentBound(used: nat, cnt: nat)
    requires used <= cnt && 0 < cnt
    ensures used * 100 / cnt <= 100
  {
    DivBounds(used * 100, cnt);
    MulMono(used, cnt, 100);
    if used * 100 / cnt > 100 {
      MulMono(101, used * 100 / cnt, cnt);
    }
  }

  lemma {:induction false} FillNothing(t: seq<nat>, b: nat)
    requires b <= |t|
    ensures Filled(t, b, 0, 0) == t
  {}

  // --- offsets and block indices ---

  lemma {:induction false} MulMono(a: nat, b: nat, k: nat)
    requires a <= b
    ensures a * k <= b * k
  {}

  lemma {:induction false} DivBounds(x: nat, k: nat)
    requires 0 < k
    ensures x / k * k <= x < x / k * k + k
  {
    assert x == x / k * k + x % k;
  }

  lemma {:induction false} DivExact(b: nat, k: nat)
    requires 0 < k
    ensures b * k / k == b
  {
    var q := b * k / k;
    DivBounds(b * k, k);
    assert (q + 1) * k == q * k + k && (b + 1) * k == b * k + k;
    if q < b {
      MulMono(q + 1, b, k);
    } else if b < q {
      MulMono(b + 1, q, k);
    }
  }

  lemma {:induction false} DivBelow(x: nat, k: nat, n: nat)
    requires 0 < k && x < n * k
    ensures x / k < n
  {
    DivBounds(x, k);
    if x / k >= n {
      MulMono(n, x / k, k);
    }
  }

  lemma {:induction false} OffsetInside(b: nat, blkSize: nat, cnt: nat)
    requires 0 < blkSize && b < cnt
    ensures b * blkSize + blkSize <= cnt * blkSize
  {
    assert (b + 1) * blkSize == b * blkSize + blkSize;
    MulMono(b + 1, cnt, blkSize);
  }
}
