/** The array heap of src/BinaryHeap.h: a value-level specification, what it guarantees for any
    strict weak order (and what it guarantees for any relation at all), and the in-place class. */
module HeapSpec {

  /** A heap is a sequence whose slot 0 is unused; the children of slot i are 2*i and 2*i+1. */
  function Elems<T>(h: seq<T>): multiset<T>
    requires |h| >= 1
  {
    multiset(h[1..])
  }

  function Swap<T>(h: seq<T>, i: nat, j: nat): seq<T>
    requires i < |h| && j < |h|
  {
    h[i := h[j]][j := h[i]]
  }

  function PercolateUp<T>(lt: (T, T) -> bool, h: seq<T>, hole: nat): (r: seq<T>)
    requires 1 <= hole < |h|
    ensures |r| == |h|
    decreases hole
  {
    if hole > 1 && lt(h[hole], h[hole / 2])
    then PercolateUp(lt, Swap(h, hole, hole / 2), hole / 2)
    else h
  }

  function Insert<T>(lt: (T, T) -> bool, h: seq<T>, x: T): (r: seq<T>)
    requires |h| >= 1
    ensures |r| == |h| + 1
  {
    PercolateUp(lt, h + [x], |h|)
  }

  function SmallerChild<T>(lt: (T, T) -> bool, h: seq<T>, i: nat): (c: nat)
    requires 1 <= i && 2 * i < |h|
    ensures c < |h| && c / 2 == i
  {
    if 2 * i + 1 < |h| && lt(h[2 * i + 1], h[2 * i]) then 2 * i + 1 else 2 * i
  }

  function PercolateDown<T>(lt: (T, T) -> bool, h: seq<T>, hole: nat): (r: seq<T>)
    requires 1 <= hole
    ensures |r| == |h|
    decreases |h| - hole
  {
    if 2 * hole >= |h| then h
    else
      var c := SmallerChild(lt, h, hole);
      if lt(h[c], h[hole]) then PercolateDown(lt, Swap(h, hole, c), c) else h
  }

  /** Removal of slot i: the last element takes its place and is percolated down, never up. */
  function EraseAt<T>(lt: (T, T) -> bool, h: seq<T>, i: nat): (r: seq<T>)
    requires 1 <= i < |h|
    ensures |r| == |h| - 1
  {
    var n := |h| - 1;
    if i == n then h[..n] else PercolateDown(lt, h[..n][i := h[n]], i)
  }

  function DeleteMin<T>(lt: (T, T) -> bool, h: seq<T>): (r: seq<T>)
    requires |h| >= 2
    ensures |r| == |h| - 1
  {
    EraseAt(lt, h, 1)
  }

  function BuildFrom<T>(lt: (T, T) -> bool, h: seq<T>, i: nat): (r: seq<T>)
    ensures |r| == |h|
    decreases i
  {
    if i == 0 then h else BuildFrom(lt, PercolateDown(lt, h, i), i - 1)
  }

  // ---------- for every relation ----------

  lemma SwapKeepsElems<T>(h: seq<T>, i: nat, j: nat)
    requires 1 <= i < |h| && 1 <= j < |h|
    ensures Elems(Swap(h, i, j)) == Elems(h)
  {
    var t := h[1..];
    assert Swap(h, i, j)[1..] == t[i - 1 := t[j - 1]][j - 1 := t[i - 1]];
  }

  lemma {:induction false} UpKeepsElems<T>(lt: (T, T) -> bool, h: seq<T>, hole: nat)
    requires 1 <= hole < |h|
    ensures Elems(PercolateUp(lt, h, hole)) == Elems(h)
    decreases hole
  {
    if hole > 1 && lt(h[hole], h[hole / 2]) {
      SwapKeepsElems(h, hole, hole / 2);
      UpKeepsElems(lt, Swap(h, hole, hole / 2), hole / 2);
    }
  }

  lemma {:induction false} DownKeepsElems<T>(lt: (T, T) -> bool, h: seq<T>, hole: nat)
    requires 1 <= hole && |h| >= 1
    ensures Elems(PercolateDown(lt, h, hole)) == Elems(h)
    decreases |h| - hole
  {
    if 2 * hole < |h| {
      var c := SmallerChild(lt, h, hole);
      if lt(h[c], h[hole]) {
        SwapKeepsElems(h, hole, c);
        DownKeepsElems(lt, Swap(h, hole, c), c);
      }
    }
  }

  lemma InsertAdds<T>(lt: (T, T) -> bool, h: seq<T>, x: T)
    requires |h| >= 1
    ensures Elems(Insert(lt, h, x)) == Elems(h) + multiset{x}
  {
    UpKeepsElems(lt, h + [x], |h|);
    assert (h + [x])[1..] == h[1..] + [x];
  }

  lemma EraseRemoves<T>(lt: (T, T) -> bool, h: seq<T>, i: nat)
    requires 1 <= i < |h|
    ensures Elems(EraseAt(lt, h, i)) == Elems(h) - multiset{h[i]}
  {
    hide PercolateDown;
    var n := |h| - 1;
    assert h[1..] == h[..n][1..] + [h[n]];
    if i < n {
      var g := h[..n][i := h[n]];
      assert g[1..] == h[..n][1..][i - 1 := h[n]];
      DownKeepsElems(lt, g, i);
    }
  }

  lemma {:induction false} BuildKeepsElems<T>(lt: (T, T) -> bool, h: seq<T>, i: nat)
    requires |h| >= 1
    ensures Elems(BuildFrom(lt, h, i)) == Elems(h)
    decreases i
  {
    if i > 0 {
      DownKeepsElems(lt, h, i);
      BuildKeepsElems(lt, PercolateDown(lt, h, i), i - 1);
    }
  }

  /** An element that is not smaller than the root never displaces the root, whatever `lt` is. */
  lemma {:induction false} UpKeepsRoot<T>(lt: (T, T) -> bool, h: seq<T>, hole: nat)
    requires 2 <= hole < |h|
    requires !lt(h[hole], h[1])
    ensures PercolateUp(lt, h, hole)[1] == h[1]
    decreases hole
  {
    if lt(h[hole], h[hole / 2]) {
      UpKeepsRoot(lt, Swap(h, hole, hole / 2), hole / 2);
    }
  }

  lemma InsertKeepsRoot<T>(lt: (T, T) -> bool, h: seq<T>, x: T)
    requires |h| >= 2
    requires !lt(x, h[1])
    ensures Insert(lt, h, x)[1] == h[1]
  {
    UpKeepsRoot(lt, h + [x], |h|);
  }

  // ---------- for every strict weak order on the stored elements ----------

  predicate Asymmetric<T>(lt: (T, T) -> bool, a: T, b: T) {
    lt(a, b) ==> !lt(b, a)
  }

  predicate NegTransitive<T>(lt: (T, T) -> bool, a: T, b: T, c: T) {
    lt(a, c) ==> lt(a, b) || lt(b, c)
  }

  /** `lt` is asymmetric and negatively transitive on the members of m. */
  ghost predicate WeakOrderOn<T>(lt: (T, T) -> bool, m: multiset<T>) {
    && (forall a, b {:trigger Asymmetric(lt, a, b)} | a in m && b in m :: Asymmetric(lt, a, b))
    && (forall a, b, c {:trigger NegTransitive(lt, a, b, c)} | a in m && b in m && c in m ::
          NegTransitive(lt, a, b, c))
  }

  /** Slot j is not smaller than slot p. */
  predicate Fits<T>(lt: (T, T) -> bool, h: seq<T>, j: nat, p: nat)
    requires j < |h| && p < |h|
  {
    !lt(h[j], h[p])
  }

  ghost predicate OrderedFrom<T>(lt: (T, T) -> bool, h: seq<T>, from: nat) {
    forall j {:trigger Fits(lt, h, j, j / 2)} | 2 <= j < |h| && j / 2 >= from :: Fits(lt, h, j, j / 2)
  }

  ghost predicate Ordered<T>(lt: (T, T) -> bool, h: seq<T>) {
    OrderedFrom(lt, h, 1)
  }

  /** Ordered from `from` on, except that slot k may be smaller than its parent. */
  ghost predicate OrderedButUp<T>(lt: (T, T) -> bool, h: seq<T>, from: nat, k: nat) {
    && (forall j {:trigger Fits(lt, h, j, j / 2)} | 2 <= j < |h| && j / 2 >= from && j != k :: Fits(lt, h, j, j / 2))
    && (forall j {:trigger Fits(lt, h, j, k / 2)} | 2 <= j < |h| && j / 2 == k && k / 2 >= from ::
          Fits(lt, h, j, k / 2))
  }

  /** Ordered from `from` on, except that slot k may be bigger than its children. */
  ghost predicate OrderedButDown<T>(lt: (T, T) -> bool, h: seq<T>, from: nat, k: nat) {
    && (forall j {:trigger Fits(lt, h, j, j / 2)} | 2 <= j < |h| && j / 2 >= from && j / 2 != k ::
          Fits(lt, h, j, j / 2))
    && (forall j {:trigger Fits(lt, h, j, k / 2)} | 2 <= j < |h| && j / 2 == k && k / 2 >= from ::
          Fits(lt, h, j, k / 2))
  }

  /** One use of the order laws on three stored elements. */
  lemma Laws<T>(lt: (T, T) -> bool, h: seq<T>, i: nat, j: nat, k: nat)
    requires 1 <= i < |h| && 1 <= j < |h| && 1 <= k < |h|
    requires WeakOrderOn(lt, Elems(h))
    ensures lt(h[i], h[j]) ==> !lt(h[j], h[i])
    ensures !lt(h[i], h[j]) && !lt(h[j], h[k]) ==> !lt(h[i], h[k])
  {
    LawsFrom(lt, h, 1, i, j, k);
  }

  lemma LawsFrom<T>(lt: (T, T) -> bool, h: seq<T>, from: nat, i: nat, j: nat, k: nat)
    requires from <= i < |h| && from <= j < |h| && from <= k < |h|
    requires WeakOrderOn(lt, multiset(h[from..]))
    ensures lt(h[i], h[j]) ==> !lt(h[j], h[i])
    ensures !lt(h[i], h[j]) && !lt(h[j], h[k]) ==> !lt(h[i], h[k])
  {
    assert h[i] == h[from..][i - from] && h[j] == h[from..][j - from] && h[k] == h[from..][k - from];
    assert Asymmetric(lt, h[i], h[j]) && NegTransitive(lt, h[i], h[j], h[k]);
  }

  lemma UpStep<T>(lt: (T, T) -> bool, h: seq<T>, from: nat, hole: nat)
    requires 1 <= from <= hole / 2 && hole < |h|
    requires WeakOrderOn(lt, multiset(h[from..]))
    requires OrderedButUp(lt, h, from, hole) && lt(h[hole], h[hole / 2])
    ensures OrderedButUp(lt, Swap(h, hole, hole / 2), from, hole / 2)
  {
    hide WeakOrderOn;
    var p := hole / 2;
    var g := Swap(h, hole, p);
    LawsFrom(lt, h, from, hole, p, p);
    forall j | 2 <= j < |g| && j / 2 >= from && j != p ensures Fits(lt, g, j, j / 2) {
      assert j != hole ==> Fits(lt, h, j, j / 2);
      assert j / 2 == hole ==> Fits(lt, h, j, hole / 2);
      if j / 2 == p && j != hole {
        LawsFrom(lt, h, from, j, p, hole);
        LawsFrom(lt, h, from, p, hole, j);
        LawsFrom(lt, h, from, j, hole, p);
      }
    }
    forall j | 2 <= j < |g| && j / 2 == p && p / 2 >= from ensures Fits(lt, g, j, p / 2) {
      assert Fits(lt, h, p, p / 2);
      if j != hole {
        assert Fits(lt, h, j, j / 2);
        LawsFrom(lt, h, from, j, p, p / 2);
      }
    }
  }

  lemma SwapKeepsTail<T>(h: seq<T>, from: nat, i: nat, j: nat)
    requires from <= i < |h| && from <= j < |h|
    ensures multiset(Swap(h, i, j)[from..]) == multiset(h[from..])
  {
    assert Swap(h, i, j)[from..] == h[from..][i - from := h[j]][j - from := h[i]];
  }

  /** Percolating an element up that does not pass the slots before `from` repairs the order from there on. */
  lemma {:induction false} UpOrders<T>(lt: (T, T) -> bool, h: seq<T>, from: nat, hole: nat)
    requires 1 <= from <= hole < |h|
    requires WeakOrderOn(lt, multiset(h[from..]))
    requires OrderedButUp(lt, h, from, hole)
    requires forall k | 1 <= k < from :: !lt(h[hole], h[k])
    ensures OrderedFrom(lt, PercolateUp(lt, h, hole), from)
    decreases hole
  {
    hide WeakOrderOn;
    if hole > 1 {
      if lt(h[hole], h[hole / 2]) {
        UpStep(lt, h, from, hole);
        SwapKeepsTail(h, from, hole, hole / 2);
        UpOrders(lt, Swap(h, hole, hole / 2), from, hole / 2);
      } else {
        assert Fits(lt, h, hole, hole / 2);
      }
    }
  }

  lemma DownStep<T>(lt: (T, T) -> bool, h: seq<T>, from: nat, k: nat)
    requires 1 <= from <= k && 2 * k < |h|
    requires WeakOrderOn(lt, Elems(h))
    requires OrderedButDown(lt, h, from, k)
    requires lt(h[SmallerChild(lt, h, k)], h[k])
    ensures OrderedButDown(lt, Swap(h, k, SmallerChild(lt, h, k)), from, SmallerChild(lt, h, k))
  {
    var c := SmallerChild(lt, h, k);
    var g := Swap(h, k, c);
    Laws(lt, h, c, k, k);
    forall j | 2 <= j < |g| && j / 2 >= from && j / 2 != c ensures Fits(lt, g, j, j / 2) {
      assert j / 2 != k ==> Fits(lt, h, j, j / 2);
      if j == k {
        assert Fits(lt, h, c, k / 2);
      } else if j / 2 == k && j != c {
        Laws(lt, h, c, j, j);
      }
    }
    forall j | 2 <= j < |g| && j / 2 == c && c / 2 >= from ensures Fits(lt, g, j, c / 2) {
      assert Fits(lt, h, j, j / 2);
    }
  }

  lemma {:induction false} DownOrders<T>(lt: (T, T) -> bool, h: seq<T>, from: nat, hole: nat)
    requires 1 <= from <= hole && |h| >= 1
    requires WeakOrderOn(lt, Elems(h))
    requires OrderedButDown(lt, h, from, hole)
    ensures OrderedFrom(lt, PercolateDown(lt, h, hole), from)
    decreases |h| - hole
  {
    if 2 * hole < |h| {
      var c := SmallerChild(lt, h, hole);
      if lt(h[c], h[hole]) {
        DownStep(lt, h, from, hole);
        SwapKeepsElems(h, hole, c);
        DownOrders(lt, Swap(h, hole, c), from, c);
      } else {
        forall j | 2 <= j < |h| && j / 2 >= from ensures Fits(lt, h, j, j / 2) {
          if j / 2 == hole {
            Laws(lt, h, c, j, j);
            Laws(lt, h, j, c, hole);
          }
        }
      }
    } else {
      forall j | 2 <= j < |h| && j / 2 >= from ensures Fits(lt, h, j, j / 2) {}
    }
  }

  lemma InsertOrders<T>(lt: (T, T) -> bool, h: seq<T>, x: T)
    requires |h| >= 1 && Ordered(lt, h)
    requires WeakOrderOn(lt, Elems(h) + multiset{x})
    ensures Ordered(lt, Insert(lt, h, x))
  {
    InsertOrdersFrom(lt, h, 1, x);
  }

  /** Insertion keeps the order from slot `from` on when the new element is not smaller than what lies before. */
  lemma InsertOrdersFrom<T>(lt: (T, T) -> bool, h: seq<T>, from: nat, x: T)
    requires 1 <= from <= |h| && OrderedFrom(lt, h, from)
    requires WeakOrderOn(lt, multiset(h[from..]) + multiset{x})
    requires forall k | 1 <= k < from :: !lt(x, h[k])
    ensures OrderedFrom(lt, Insert(lt, h, x), from)
  {
    hide WeakOrderOn;
    var g := h + [x];
    assert g[from..] == h[from..] + [x];
    forall j | 2 <= j < |g| && j / 2 >= from && j != |h| ensures Fits(lt, g, j, j / 2) {
      assert Fits(lt, h, j, j / 2);
    }
    UpOrders(lt, g, from, |h|);
  }

  lemma {:induction false} RootIsLeast<T>(lt: (T, T) -> bool, h: seq<T>, j: nat)
    requires 1 <= j < |h| && Ordered(lt, h)
    requires WeakOrderOn(lt, Elems(h))
    ensures !lt(h[j], h[1])
    decreases j
  {
    if j == 1 {
      Laws(lt, h, 1, 1, 1);
    } else {
      assert Fits(lt, h, j, j / 2);
      RootIsLeast(lt, h, j / 2);
      Laws(lt, h, j, j / 2, 1);
    }
  }

  /** Whether the element that erasing slot i moves may stay below the parent of slot i. */
  ghost predicate MovedFits<T>(lt: (T, T) -> bool, h: seq<T>, i: nat)
    requires 1 <= i < |h|
  {
    i == 1 || i == |h| - 1 || !lt(h[|h| - 1], h[i / 2])
  }

  /** Filling slot i of the shortened heap with the former last element. */
  lemma MovedElems<T>(lt: (T, T) -> bool, h: seq<T>, i: nat)
    requires 1 <= i < |h| - 1
    requires WeakOrderOn(lt, Elems(h))
    ensures WeakOrderOn(lt, Elems(h[..|h| - 1][i := h[|h| - 1]]))
  {
    var g := h[..|h| - 1][i := h[|h| - 1]];
    forall a | a in Elems(g) ensures a in Elems(h) {
      var k :| 0 <= k < |g[1..]| && g[1..][k] == a;
      assert h[1..][if k == i - 1 then |h| - 2 else k] == a;
    }
  }

  lemma MovedButDown<T>(lt: (T, T) -> bool, h: seq<T>, i: nat)
    requires 1 <= i < |h| - 1 && Ordered(lt, h) && MovedFits(lt, h, i)
    requires WeakOrderOn(lt, Elems(h))
    ensures OrderedButDown(lt, h[..|h| - 1][i := h[|h| - 1]], 1, i)
  {
    hide WeakOrderOn, Elems;
    var n := |h| - 1;
    var g := h[..n][i := h[n]];
    forall j | 2 <= j < n && j / 2 != i ensures Fits(lt, g, j, j / 2) {
      assert Fits(lt, h, j, j / 2);
    }
    forall j | 2 <= j < n && j / 2 == i && i / 2 >= 1 ensures Fits(lt, g, j, i / 2) {
      assert Fits(lt, h, j, j / 2) && Fits(lt, h, i, i / 2);
      Laws(lt, h, j, i, i / 2);
    }
  }

  /** Removing the root repairs a heap in which only the root is out of order, whatever the root is. */
  lemma DeleteMinOrders<T>(lt: (T, T) -> bool, h: seq<T>)
    requires |h| >= 2 && OrderedFrom(lt, h, 2)
    requires WeakOrderOn(lt, multiset(h[2..]))
    ensures Ordered(lt, DeleteMin(lt, h))
  {
    hide WeakOrderOn;
    var n := |h| - 1;
    if n > 1 {
      var g := h[..n][1 := h[n]];
      assert h[2..] == h[2..n] + [h[n]] && g[1..] == [h[n]] + h[2..n];
      assert multiset(g[1..]) == multiset([h[n]]) + multiset(h[2..n]) == multiset(h[2..]);
      forall j | 2 <= j < n && j / 2 != 1 ensures Fits(lt, g, j, j / 2) {
        assert Fits(lt, h, j, j / 2);
      }
      DownOrders(lt, g, 1, 1);
    }
  }

  lemma FittingErase<T>(lt: (T, T) -> bool, h: seq<T>, i: nat)
    requires 1 <= i < |h| - 1 && Ordered(lt, h) && MovedFits(lt, h, i)
    requires WeakOrderOn(lt, Elems(h))
    ensures Ordered(lt, EraseAt(lt, h, i))
  {
    MovedElems(lt, h, i);
    MovedButDown(lt, h, i);
    DownOrders(lt, h[..|h| - 1][i := h[|h| - 1]], 1, i);
  }

  /** A moved element below its new parent is smaller than everything below slot i, so it stays there. */
  lemma MisfittingErase<T>(lt: (T, T) -> bool, h: seq<T>, i: nat)
    requires 1 <= i < |h| - 1 && Ordered(lt, h) && !MovedFits(lt, h, i)
    requires WeakOrderOn(lt, Elems(h))
    ensures !Ordered(lt, EraseAt(lt, h, i))
  {
    var n := |h| - 1;
    var g := h[..n][i := h[n]];
    if 2 * i < n {
      var c := SmallerChild(lt, g, i);
      assert Fits(lt, h, c, c / 2) && Fits(lt, h, i, i / 2);
      Laws(lt, h, c, i, i / 2);
      Laws(lt, h, n, i / 2, n);
      if lt(h[c], h[n]) {
        Laws(lt, h, c, n, n);
        Laws(lt, h, n, c, i / 2);
      }
    }
    assert !Fits(lt, g, i, i / 2);
  }

  /** Erasing keeps the heap ordered exactly when the moved element fits below its new parent. */
  lemma EraseOrdersIff<T>(lt: (T, T) -> bool, h: seq<T>, i: nat)
    requires 1 <= i < |h| && Ordered(lt, h)
    requires WeakOrderOn(lt, Elems(h))
    ensures Ordered(lt, EraseAt(lt, h, i)) <==> MovedFits(lt, h, i)
  {
    var n := |h| - 1;
    if i == n {
      forall j | 2 <= j < n ensures Fits(lt, h[..n], j, j / 2) {
        assert Fits(lt, h, j, j / 2);
      }
    } else if MovedFits(lt, h, i) {
      FittingErase(lt, h, i);
    } else {
      MisfittingErase(lt, h, i);
    }
  }

  lemma {:induction false} BuildOrders<T>(lt: (T, T) -> bool, h: seq<T>, i: nat)
    requires |h| >= 1 && OrderedFrom(lt, h, i + 1)
    requires WeakOrderOn(lt, Elems(h))
    ensures Ordered(lt, BuildFrom(lt, h, i))
    decreases i
  {
    hide WeakOrderOn, Elems, PercolateDown;
    if i > 0 {
      DownOrders(lt, h, i, i);
      DownKeepsElems(lt, h, i);
      BuildOrders(lt, PercolateDown(lt, h, i), i - 1);
    }
  }

  predicate Smaller(a: int, b: int) {
    a < b
  }

  /** A heap in which erase_if breaks the order: erasing slot 4 puts 3 below 7. */
  lemma EraseCanBreakOrder()
    ensures var h := [0, 1, 7, 2, 8, 9, 4, 3];
      && (forall m :: WeakOrderOn(Smaller, m))
      && Ordered(Smaller, h)
      && !Ordered(Smaller, EraseAt(Smaller, h, 4))
  {
    var h := [0, 1, 7, 2, 8, 9, 4, 3];
    var g := EraseAt(Smaller, h, 4);
    assert g == [0, 1, 7, 2, 3, 9, 4];
    var j: nat := 4;
    assert !Fits(Smaller, g, j, j / 2);
  }
}

module BinaryHeaps {
  import opened HeapSpec

  /** The class BinaryHeap<T>: `heap` has slack at its end, `size` counts the elements in use. */
  class BinaryHeap<T(0)> {
    const lt: (T, T) -> bool   // operator< of the element type
    const blank: T             // the value of T()
    var heap: array<T>
    var size: nat

    ghost predicate Valid()
      reads this
    {
      size < heap.Length
    }

    /** The slots in use, as the heap of the specification. */
    ghost function View(): (h: seq<T>)
      requires Valid()
      reads this, heap
      ensures |h| == size + 1
    {
      heap[..size + 1]
    }

    /** The default capacity is 100. */
    constructor (lt: (T, T) -> bool, blank: T, capacity: nat)
      requires capacity >= 1
      ensures Valid() && fresh(heap)
      ensures this.lt == lt && this.blank == blank
      ensures View() == [blank]
    {
      this.lt, this.blank := lt, blank;
      heap := new T[capacity](_ => blank);
      size := 0;
    }

    constructor FromItems(lt: (T, T) -> bool, blank: T, items: seq<T>)
      ensures Valid() && fresh(heap)
      ensures this.lt == lt && this.blank == blank
      ensures View() == BuildFrom(lt, [blank] + items, |items| / 2)
    {
      hide BuildFrom;
      this.lt, this.blank := lt, blank;
      heap := new T[|items| + 10](_ => blank);
      size := |items|;
      new;
      for i := 0 to |items|
        invariant heap.Length == |items| + 10 && size == |items| && fresh(heap)
        invariant heap[..i + 1] == [blank] + items[..i]
      {
        heap[i + 1] := items[i];
      }
      assert items[..|items|] == items;
      Build();
    }

    predicate Empty()
      reads this
    {
      size == 0
    }

    function FindMin(): (x: T)
      requires Valid() && !Empty()
      reads this, heap
    {
      heap[1]
    }

    /** Doubles the capacity when every slot is in use. */
    method Grow()
      requires Valid()
      modifies this`heap
      ensures size + 1 < heap.Length && (heap == old(heap) || fresh(heap))
      ensures View() == old(View())
    {
      if size == heap.Length - 1 {
        var bigger := new T[heap.Length * 2](_ => blank);
        forall i | 0 <= i < heap.Length {
          bigger[i] := heap[i];
        }
        heap := bigger;
      }
    }

    /** The assignment heap[i] = x on a slot in use. */
    method Put(i: nat, x: T)
      requires Valid() && i <= size
      modifies heap
      ensures View() == old(View())[i := x]
    {
      heap[i] := x;
    }

    method Insert(x: T)
      requires Valid()
      modifies this, heap
      ensures Valid() && (heap == old(heap) || fresh(heap))
      ensures View() == HeapSpec.Insert(lt, old(View()), x)
    {
      Grow();
      ghost var h := View();
      size := size + 1;
      var hole := size;
      assert View()[hole := x] == h + [x];
      while hole > 1 && lt(x, heap[hole / 2])
        invariant Valid() && size == |h| && (heap == old(heap) || fresh(heap))
        invariant 1 <= hole <= size
        invariant PercolateUp(lt, View()[hole := x], hole) == PercolateUp(lt, h + [x], |h|)
      {
        HoleUp(lt, View(), hole, x);
        Put(hole, heap[hole / 2]);
        hole := hole / 2;
      }
      HoleStays(lt, View(), hole, x);
      Put(hole, x);
    }

    method PercolateDownAt(start: nat)
      requires Valid()
      requires 1 <= start <= size
      modifies heap
      ensures View() == PercolateDown(lt, old(View()), start)
    {
      var hole := start;
      var tmp := heap[hole];
      ghost var h := View();
      assert h[hole := tmp] == h;
      while hole * 2 <= size
        invariant 1 <= hole <= size
        invariant PercolateDown(lt, View()[hole := tmp], hole) == PercolateDown(lt, h, start)
        decreases size - hole
      {
        var child := hole * 2;
        if child != size && lt(heap[child + 1], heap[child]) {
          child := child + 1;
        }
        assert child == SmallerChild(lt, View(), hole);
        if lt(heap[child], tmp) {
          HoleSinks(lt, View(), hole, child, tmp);
          Put(hole, heap[child]);
        } else {
          break;
        }
        hole := child;
      }
      HoleRests(lt, View(), hole, tmp);
      Put(hole, tmp);
    }

    method Build()
      requires Valid()
      modifies heap
      ensures View() == BuildFrom(lt, old(View()), size / 2)
    {
      hide PercolateDown, BuildFrom;
      var i := size / 2;
      ghost var v := View();
      ghost var goal := BuildFrom(lt, v, i);
      while i > 0
        invariant 0 <= i <= size / 2
        invariant v == View()
        invariant BuildFrom(lt, v, i) == goal
      {
        BuildStep(lt, v, i);
        v := PercolateDown(lt, v, i);
        PercolateDownAt(i);
        i := i - 1;
      }
      BuildDone(lt, v);
    }

    /** The search of erase_if: the first slot whose element f accepts, or size + 1. */
    method FirstMatch(f: T -> bool) returns (i: nat)
      requires Valid()
      ensures 1 <= i <= size + 1
      ensures forall k | 1 <= k < i :: !f(heap[k])
      ensures i <= size ==> f(heap[i])
    {
      i := 1;
      while i < size + 1
        invariant 1 <= i <= size + 1
        invariant forall k | 1 <= k < i :: !f(heap[k])
      {
        if f(heap[i]) {
          break;
        }
        i := i + 1;
      }
    }

    /** `heap[i] = heap[size_--]` and the percolation that follows it in every removal (from slot
        size + 1 the percolation does nothing). */
    method MoveLastTo(i: nat)
      requires Valid() && 1 <= i <= size
      modifies this`size, heap
      ensures Valid()
      ensures View() == EraseAt(lt, old(View()), i)
    {
      ghost var h := View();
      heap[i] := heap[size];
      size := size - 1;
      assert View() == if i == |h| - 1 then h[..i] else h[..|h| - 1][i := h[|h| - 1]];
      if i <= size {
        PercolateDownAt(i);
      }
    }

    /** Erases the first element, in slot order, that f accepts; `at` is its slot. */
    method EraseIf(f: T -> bool) returns (ghost at: nat)
      requires Valid()
      modifies this`size, heap
      ensures Valid()
      ensures 1 <= at <= old(size) + 1
      ensures forall k | 1 <= k < at :: !f(old(View())[k])
      ensures if at == old(size) + 1 then View() == old(View())
              else f(old(View())[at]) && View() == EraseAt(lt, old(View()), at)
    {
      at := 1;
      if Empty() {
        return;
      }
      var i := FirstMatch(f);
      at := i;
      if i == size + 1 {
        return;
      }
      MoveLastTo(i);
      heap[size + 1] := blank;
    }

    method DeleteMin()
      requires Valid() && !Empty()
      modifies this`size, heap
      ensures Valid()
      ensures View() == HeapSpec.DeleteMin(lt, old(View()))
      ensures heap[size + 1] == blank
    {
      MoveLastTo(1);
      heap[size + 1] := blank;
    }

    /** The overload that hands the minimum out. Unlike DeleteMin() it does not blank the vacated slot. */
    method PopMin() returns (x: T)
      requires Valid() && !Empty()
      modifies this`size, heap
      ensures Valid()
      ensures x == old(View())[1]
      ensures View() == HeapSpec.DeleteMin(lt, old(View()))
    {
      ghost var h, n := View(), size;
      x := heap[1];
      heap[1] := blank;
      assert h[1 := blank][..n] == h[..n] || n > 1;
      assert n > 1 ==> h[1 := blank][..n][1 := h[n]] == h[..n][1 := h[n]];
      MoveLastTo(1);
    }
  }

  // One round of each percolation loop, seen on the heap in which x fills the hole.

  lemma HoleUp<T>(lt: (T, T) -> bool, h: seq<T>, hole: nat, x: T)
    requires 2 <= hole < |h| && lt(x, h[hole / 2])
    ensures PercolateUp(lt, h[hole := x], hole)
         == PercolateUp(lt, h[hole := h[hole / 2]][hole / 2 := x], hole / 2)
  {
    assert Swap(h[hole := x], hole, hole / 2) == h[hole := h[hole / 2]][hole / 2 := x];
  }

  lemma HoleStays<T>(lt: (T, T) -> bool, h: seq<T>, hole: nat, x: T)
    requires 1 <= hole < |h| && (hole == 1 || !lt(x, h[hole / 2]))
    ensures PercolateUp(lt, h[hole := x], hole) == h[hole := x]
  {
  }

  lemma HoleSinks<T>(lt: (T, T) -> bool, h: seq<T>, hole: nat, c: nat, x: T)
    requires 1 <= hole && 2 * hole < |h|
    requires c == SmallerChild(lt, h, hole) && lt(h[c], x)
    ensures PercolateDown(lt, h[hole := x], hole) == PercolateDown(lt, h[hole := h[c]][c := x], c)
  {
    assert c == SmallerChild(lt, h[hole := x], hole);
    assert Swap(h[hole := x], hole, c) == h[hole := h[c]][c := x];
  }

  lemma HoleRests<T>(lt: (T, T) -> bool, h: seq<T>, hole: nat, x: T)
    requires 1 <= hole < |h|
    requires 2 * hole >= |h| || !lt(h[SmallerChild(lt, h, hole)], x)
    ensures PercolateDown(lt, h[hole := x], hole) == h[hole := x]
  {
    assert 2 * hole < |h| ==> SmallerChild(lt, h, hole) == SmallerChild(lt, h[hole := x], hole);
  }

  lemma BuildDone<T>(lt: (T, T) -> bool, h: seq<T>)
    ensures BuildFrom(lt, h, 0) == h
  {
  }

  lemma BuildStep<T>(lt: (T, T) -> bool, h: seq<T>, i: nat)
    requires i >= 1
    ensures BuildFrom(lt, h, i) == BuildFrom(lt, PercolateDown(lt, h, i), i - 1)
  {
  }

  /** The drained part is sorted and nothing that stays behind is smaller than any of it. */
  ghost predicate DrainedBelow<T>(lt: (T, T) -> bool, out: seq<T>, rest: multiset<T>) {
    && (forall i, j | 0 <= i < j < |out| :: !lt(out[j], out[i]))
    && (forall i, y | 0 <= i < |out| && y in rest :: !lt(y, out[i]))
  }

  lemma RemoveRoot<T>(lt: (T, T) -> bool, g: seq<T>, out: seq<T>, all: multiset<T>)
    requires |g| >= 2 && Ordered(lt, g)
    requires multiset(out) + Elems(g) == all && WeakOrderOn(lt, all)
    requires DrainedBelow(lt, out, Elems(g))
    ensures Ordered(lt, DeleteMin(lt, g))
    ensures multiset(out + [g[1]]) + Elems(DeleteMin(lt, g)) == all
    ensures DrainedBelow(lt, out + [g[1]], Elems(DeleteMin(lt, g)))
  {
    assert g[1] == g[1..][0];
    assert WeakOrderOn(lt, Elems(g));
    forall y | y in Elems(g) ensures !lt(y, g[1]) {
      var k :| 0 <= k < |g[1..]| && g[1..][k] == y;
      RootIsLeast(lt, g, k + 1);
    }
    EraseRemoves(lt, g, 1);
    EraseOrdersIff(lt, g, 1);
  }

  lemma BuiltHeap<T>(lt: (T, T) -> bool, blank: T, items: seq<T>)
    requires WeakOrderOn(lt, multiset(items))
    ensures var h := BuildFrom(lt, [blank] + items, |items| / 2);
      Elems(h) == multiset(items) && Ordered(lt, h)
  {
    var v := [blank] + items;
    assert v[1..] == items;
    BuildKeepsElems(lt, v, |items| / 2);
    BuildOrders(lt, v, |items| / 2);
  }

  /** Draining a heap built from any vector gives the sorted permutation of that vector. */
  method DrainSorted<T(0)>(lt: (T, T) -> bool, blank: T, items: seq<T>) returns (out: seq<T>)
    requires WeakOrderOn(lt, multiset(items))
    ensures multiset(out) == multiset(items)
    ensures forall i, j | 0 <= i < j < |out| :: !lt(out[j], out[i])
  {
    var h := new BinaryHeap<T>.FromItems(lt, blank, items);
    BuiltHeap(lt, blank, items);
    out := [];
    while !h.Empty()
      invariant h.Valid() && fresh(h) && fresh(h.heap) && h.lt == lt
      invariant Ordered(lt, h.View())
      invariant multiset(out) + Elems(h.View()) == multiset(items)
      invariant DrainedBelow(lt, out, Elems(h.View()))
      decreases h.size
    {
      RemoveRoot(lt, h.View(), out, multiset(items));
      var x := h.PopMin();
      out := out + [x];
    }
    assert Elems(h.View()) == multiset{};
  }
}
