// components/utils/ln_list.h: the intrusive doubly linked ring. A list is its head followed by its elements;
// the ghost sequence r lists the nodes of the ring in next order, starting with the head.
module RingList {
  class Node {
    var next: Node?
    var prev: Node?

    constructor () { next, prev := null, null; }
  }

  ghost predicate Distinct(r: seq<Node>) { forall i, j | 0 <= i < j < |r| :: r[i] != r[j] }

  ghost predicate Ring(r: seq<Node>)
    reads r
  {
    && 0 < |r| && Distinct(r)
    && (forall i | 0 <= i < |r| - 1 :: r[i].next == r[i + 1])
    && (forall i | 0 < i < |r| :: r[i].prev == r[i - 1])
    && r[|r| - 1].next == r[0] && r[0].prev == r[|r| - 1]
  }

  /** Following next and then prev, or prev and then next, comes back. */
  lemma {:induction false} MutualInverses(r: seq<Node>, i: nat)
    requires Ring(r) && i < |r|
    ensures r[i].next in r && r[i].prev in r && r[i].next.prev == r[i] && r[i].prev.next == r[i]
  {
    if i == |r| - 1 {
      assert r[0].prev == r[i];
    } else {
      assert r[i].next == r[i + 1] && r[i + 1].prev == r[i];
    }
    if i == 0 {
      assert r[|r| - 1].next == r[0];
    } else {
      assert r[i].prev == r[i - 1] && r[i - 1].next == r[i];
    }
  }

  /** The ring may be read starting from any of its nodes. */
  lemma {:induction false} Rotate(r: seq<Node>, k: nat)
    requires Ring(r) && k < |r|
    ensures Ring(r[k..] + r[..k])
  {
    var q := r[k..] + r[..k];
    forall i | 0 <= i < |q| - 1
      ensures q[i].next == q[i + 1] && q[i + 1].prev == q[i]
    {
      var j := if i < |r| - k then k + i else i - (|r| - k);
      assert q[i] == r[j];
      assert q[i + 1] == if j == |r| - 1 then r[0] else r[j + 1];
    }
  }

  lemma {:induction false} Successor(r: seq<Node>, i: nat)
    requires Ring(r) && i < |r|
    ensures r[i].next == r[if i == |r| - 1 then 0 else i + 1]
  {}

  method Init(head: Node)
    modifies head
    ensures Ring([head])
  {
    head.next := head;
    head.prev := head;
  }

  method IsEmpty(list: Node, ghost r: seq<Node>) returns (b: bool)
    requires Ring(r) && r[0] == list
    ensures b == (r == [list])
  {
    b := list.next == list;
    assert |r| > 1 ==> r[0].next == r[1];
  }

  /** ln_list_insert: the element becomes the last of the list. */
  method Insert(head: Node, element: Node, ghost r: seq<Node>)
    requires Ring(r) && r[0] == head && element !in r
    modifies head, head.prev, element
    ensures Ring(r + [element])
  {
    ghost var last := r[|r| - 1];
    assert head in r && last in r && head.prev == last;
    element.prev := head.prev;
    element.next := head;
    head.prev.next := element;
    head.prev := element;
    ghost var q := r + [element];
    assert q[|r| - 1] == last && q[|r|] == element && q[0] == head;
  }

  /** ln_list_add: the element becomes the first of the list. */
  method Add(head: Node, element: Node, ghost r: seq<Node>)
    requires Ring(r) && r[0] == head && element !in r
    modifies head, head.next, element
    ensures Ring([head, element] + r[1..])
  {
    ghost var first := if |r| == 1 then head else r[1];
    assert head in r && first in r && head.next == first;
    element.prev := head;
    element.next := head.next;
    head.next.prev := element;
    head.next := element;
    ghost var q := [head, element] + r[1..];
    assert q[|q| - 1] == if |r| == 1 then element else r[|r| - 1];
    assert forall i | 2 <= i < |q| :: q[i] == r[i - 1];
  }

  lemma {:induction false} Neighbours(r: seq<Node>, k: nat)
    requires Ring(r) && k < |r| && 1 < |r|
    ensures r[k].prev == r[if k == 0 then |r| - 1 else k - 1] && r[k].prev != r[k]
    ensures r[k].next == r[if k == |r| - 1 then 0 else k + 1] && r[k].next != r[k]
  {}

  function Without<T>(s: seq<T>, k: nat): seq<T>
    requires k < |s|
  {
    s[..k] + s[k + 1..]
  }

  lemma {:induction false} RemovedIndex(r: seq<Node>, k: nat)
    requires k < |r|
    ensures |Without(r, k)| == |r| - 1
    ensures forall i | 0 <= i < |r| - 1 :: Without(r, k)[i] == (if i < k then r[i] else r[i + 1])
  {}

  /** ln_list_rm: exactly the element leaves the ring; its own links still point into the ring. */
  method Rm(element: Node, ghost r: seq<Node>, ghost k: nat)
    requires Ring(r) && k < |r| && r[k] == element
    modifies element.prev, element.next
    ensures 1 < |r| ==> Ring(Without(r, k))
    ensures element.next == old(element.next) && element.prev == old(element.prev)
  {
    MutualInverses(r, k);
    RemovedIndex(r, k);
    if 1 < |r| {
      Neighbours(r, k);
    }
    element.prev.next := element.next;
    element.next.prev := element.prev;
  }

  /** ln_list_rm_init: the element leaves the ring and becomes a ring of its own; a lone node stays as it is. */
  method RmInit(element: Node, ghost r: seq<Node>, ghost k: nat)
    requires Ring(r) && k < |r| && r[k] == element
    modifies element, element.prev, element.next
    ensures 1 < |r| ==> Ring(Without(r, k))
    ensures Ring([element])
  {
    MutualInverses(r, k);
    RemovedIndex(r, k);
    if 1 < |r| {
      Neighbours(r, k);
    }
    element.prev.next := element.next;
    element.next.prev := element.prev;
    element.prev := element;
    element.next := element;
  }

  // --- traversals, as far as they visit nodes ---

  /** LN_LIST_FOR_EACH_ENTRY */
  method ForEach(list: Node, ghost r: seq<Node>) returns (visited: seq<Node>)
    requires Ring(r) && r[0] == list
    ensures visited == r[1..]
  {
    visited := [];
    var entry := list.next;
    ghost var i := 1;
    while entry != list
      invariant 1 <= i <= |r| && entry == (if i < |r| then r[i] else list)
      invariant visited == r[1..i]
      decreases |r| - i
    {
      visited := visited + [entry];
      entry := entry.next;
      i := i + 1;
    }
  }

  function Reversed<T>(s: seq<T>): (r: seq<T>)
    ensures |r| == |s| && forall i | 0 <= i < |s| :: r[i] == s[|s| - 1 - i]
  {
    seq(|s|, i requires 0 <= i < |s| => s[|s| - 1 - i])
  }

  /** LN_LIST_FOR_EACH_ENTRY_REVERSE */
  method ForEachReverse(list: Node, ghost r: seq<Node>) returns (visited: seq<Node>)
    requires Ring(r) && r[0] == list
    ensures visited == Reversed(r[1..])
  {
    visited := [];
    var entry := list.prev;
    ghost var i := |r| - 1;
    while entry != list
      invariant 0 <= i < |r| && entry == r[i]
      invariant |visited| == |r| - 1 - i && forall k | 0 <= k < |visited| :: visited[k] == r[|r| - 1 - k]
      decreases i
    {
      visited := visited + [entry];
      entry := entry.prev;
      i := i - 1;
    }
  }

  /** The nodes of s that are kept, in order. */
  ghost function Kept(s: seq<Node>, drop: set<Node>): seq<Node>
    decreases |s|
  {
    if |s| == 0 then [] else
    var front, last := s[..|s| - 1], s[|s| - 1];
    if last in drop then Kept(front, drop) else Kept(front, drop) + [last]
  }

  lemma {:induction false} KeptMembers(s: seq<Node>, drop: set<Node>)
    ensures forall n | n in Kept(s, drop) :: n in s && n !in drop
    decreases |s|
  {
    if |s| > 0 {
      KeptMembers(s[..|s| - 1], drop);
    }
  }

  /** The ring while node i of r is being visited: the kept nodes before it, and everything from it on. */
  ghost function Remaining(r: seq<Node>, drop: set<Node>, i: nat): seq<Node>
    requires 1 <= i <= |r|
  {
    [r[0]] + Kept(r[1..i], drop) + r[i..]
  }

  lemma {:induction false} RemainingStep(r: seq<Node>, drop: set<Node>, i: nat)
    requires 1 <= i < |r|
    ensures var q, k := Remaining(r, drop, i), 1 + |Kept(r[1..i], drop)|;
      && k < |q| && q[k] == r[i]
      && Remaining(r, drop, i + 1) == if r[i] in drop then Without(q, k) else q
  {
    assert r[1..i + 1][..i - 1] == r[1..i];
    assert r[i..] == [r[i]] + r[i + 1..];
    var q, k := Remaining(r, drop, i), 1 + |Kept(r[1..i], drop)|;
    assert q == ([r[0]] + Kept(r[1..i], drop)) + [r[i]] + r[i + 1..];
  }

  lemma {:induction false} RemainingMembers(r: seq<Node>, drop: set<Node>, i: nat)
    requires Distinct(r) && 1 <= i <= |r| && r[0] !in drop
    ensures forall n | n in Remaining(r, drop, i) :: n in r
    ensures forall k | 0 <= k < i && r[k] in drop :: r[k] !in Remaining(r, drop, i)
  {
    KeptMembers(r[1..i], drop);
  }

  /** What the body of the traversal does to a node it removes. */
  method Remove(entry: Node, reset: bool, ghost q: seq<Node>, ghost k: nat)
    requires Ring(q) && k < |q| && q[k] == entry
    modifies entry, entry.prev, entry.next
    ensures 1 < |q| ==> Ring(Without(q, k))
    ensures reset ==> Ring([entry])
  {
    if reset {
      RmInit(entry, q, k);
    } else {
      Rm(entry, q, k);
    }
  }

  /** One visit of the safe traversal: the node may be removed by either operation. */
  method VisitSafe(entry: Node, drop: set<Node>, reset: set<Node>, ghost r: seq<Node>, ghost i: nat)
    requires Distinct(r) && 1 <= i < |r| && r[i] == entry && r[0] !in drop && reset <= drop
    requires Ring(Remaining(r, drop, i)) && forall k | 0 <= k < i && r[k] in reset :: Ring([r[k]])
    modifies r
    ensures Ring(Remaining(r, drop, i + 1)) && forall k | 0 <= k < i + 1 && r[k] in reset :: Ring([r[k]])
  {
    hide Remaining, Kept;
    ghost var q, k := Remaining(r, drop, i), 1 + |Kept(r[1..i], drop)|;
    RemainingStep(r, drop, i);
    RemainingMembers(r, drop, i);
    if entry in drop {
      Neighbours(q, k);
      assert q[k] in q && entry.prev in q && entry.next in q;
      Remove(entry, entry in reset, q, k);
    }
  }

  lemma {:induction false} RemainingNext(r: seq<Node>, drop: set<Node>, i: nat)
    requires 1 <= i < |r| && Ring(Remaining(r, drop, i))
    ensures r[i].next == if i + 1 < |r| then r[i + 1] else r[0]
  {
    hide Kept;
    var q, k := Remaining(r, drop, i), 1 + |Kept(r[1..i], drop)|;
    RemainingStep(r, drop, i);
    Successor(q, k);
    assert q == ([r[0]] + Kept(r[1..i], drop)) + r[i..];
  }

  lemma {:induction false} RemainingHead(r: seq<Node>, drop: set<Node>)
    requires 1 <= |r| && Ring(Remaining(r, drop, |r|))
    ensures r[0].next != null
  {
    Successor(Remaining(r, drop, |r|), 0);
  }

  /**
   * LN_LIST_FOR_EACH_ENTRY_SAFE with a body that removes some of the visited nodes, by ln_list_rm_init those in reset
   * and by ln_list_rm the others: every node of the original list is visited once, in order, and the ring that
   * remains is the head with the nodes that were kept.
   */
  method ForEachSafe(list: Node, drop: set<Node>, reset: set<Node>, ghost r: seq<Node>) returns (visited: seq<Node>)
    requires Ring(r) && r[0] == list && list !in drop && reset <= drop
    modifies r
    ensures visited == r[1..]
    ensures Ring([list] + Kept(r[1..], drop))
    ensures forall k | 0 <= k < |r| && r[k] in reset :: Ring([r[k]])
  {
    hide Kept, Remaining;
    visited := [];
    Successor(r, 0);
    var entry := list.next;
    Successor(r, if |r| == 1 then 0 else 1);
    var tmp := entry.next;
    ghost var i := 1;
    StartRemaining(r, drop);
    while entry != list
      invariant 1 <= i <= |r| && visited == r[1..i]
      invariant Ring(Remaining(r, drop, i))
      invariant entry == (if i < |r| then r[i] else list) && tmp == entry.next
      invariant forall k | 0 <= k < i && r[k] in reset :: Ring([r[k]])
      decreases |r| - i
    {
      RemainingNext(r, drop, i);
      VisitSafe(entry, drop, reset, r, i);
      visited := visited + [entry];
      entry := tmp;
      i := i + 1;
      if i < |r| {
        RemainingNext(r, drop, i);
      } else {
        RemainingHead(r, drop);
      }
      tmp := entry.next;
    }
    EndRemaining(r, drop);
  }

  lemma {:induction false} StartRemaining(r: seq<Node>, drop: set<Node>)
    requires 0 < |r|
    ensures Remaining(r, drop, 1) == r
  {}

  lemma {:induction false} EndRemaining(r: seq<Node>, drop: set<Node>)
    requires 0 < |r|
    ensures Remaining(r, drop, |r|) == [r[0]] + Kept(r[1..], drop)
  {
    assert r[1..|r|] == r[1..];
  }
}
