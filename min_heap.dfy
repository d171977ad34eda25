/**
 * The array min-heap of the block-frequency scan: `min_heapify`,
 * `delete_min`, `insert_min` and `topk_heap` over `heap[0 .. len)`, where
 * the children of slot `i` are `2i + 1` and `2i + 2`.
 */
module MinHeap {

  /** The parent slot, `(j - 1) >> 1` (an arithmetic shift, so -1 for slot 0). */
  function Parent(j: int): int
  {
    (j - 1) / 2
  }

  /** `x & ~1`: `x` rounded down to an even number (two's complement for negative `x`). */
  function EvenFloor(x: int): (r: int)
    ensures r <= x < r + 2 && r % 2 == 0
  {
    x - x % 2
  }

  ghost predicate IsMinHeap(a: seq<int>, len: int)
    requires 0 <= len <= |a|
  {
    forall j :: 0 < j < len ==> a[Parent(j)] <= a[j]
  }

  /** Heap order holds on every edge except those below slot `i`, and `i`'s parent bounds `i`'s children. */
  ghost predicate HeapBelowBroken(a: seq<int>, len: int, i: int)
    requires 0 <= len <= |a|
  {
    (forall j :: 0 < j < len && Parent(j) != i ==> a[Parent(j)] <= a[j]) &&
    (forall j :: 0 < j < len && Parent(j) == i && i > 0 ==> a[Parent(i)] <= a[j])
  }

  /** Heap order holds on every edge except the one above slot `i`, and `i`'s parent bounds `i`'s children. */
  ghost predicate HeapAboveBroken(a: seq<int>, len: int, i: int)
    requires 0 <= len <= |a|
  {
    (forall j :: 0 < j < len && j != i ==> a[Parent(j)] <= a[j]) &&
    (forall j :: 0 < j < len && Parent(j) == i && i > 0 ==> a[Parent(i)] <= a[j])
  }

  /** `y` is no larger than any element of `m`. */
  ghost predicate LowerBound(y: int, m: multiset<int>)
  {
    forall x :: x in m ==> y <= x
  }

  /** The root of a heap is its minimum. */
  lemma {:induction false} RootIsMin(a: seq<int>, len: int, j: int)
    requires 0 <= j < len <= |a| && IsMinHeap(a, len)
    ensures a[0] <= a[j]
    decreases j
  {
    if j > 0 {
      RootIsMin(a, len, Parent(j));
    }
  }

  lemma SwapMultiset(s: seq<int>, i: int, j: int)
    requires 0 <= i < |s| && 0 <= j < |s|
    ensures multiset(s[i := s[j]][j := s[i]]) == multiset(s)
  {
    var t := s[i := s[j]];
    assert multiset(t) == multiset(s) - multiset{s[i]} + multiset{s[j]};
    assert multiset(t[j := s[i]]) == multiset(t) - multiset{t[j]} + multiset{s[i]};
  }

  lemma ParentOfChildren(i: int)
    requires i >= 0
    ensures Parent(2 * i + 1) == i && Parent(2 * i + 2) == i
  {
  }

  lemma ChildrenOfParent(j: int)
    requires j > 0
    ensures j == 2 * Parent(j) + 1 || j == 2 * Parent(j) + 2
  {
  }

  /** One sift-down swap of slot `i` with its smaller child `c` moves the broken spot to `c`. */
  lemma SiftDownStep(a: seq<int>, len: int, i: int, c: int)
    requires 0 <= i < c < len <= |a| && (c == 2 * i + 1 || c == 2 * i + 2)
    requires HeapBelowBroken(a, len, i) && a[c] < a[i]
    requires 2 * i + 1 < len ==> a[c] <= a[2 * i + 1]
    requires 2 * i + 2 < len ==> a[c] <= a[2 * i + 2]
    ensures HeapBelowBroken(a[i := a[c]][c := a[i]], len, c)
  {
    SiftDownEdges(a, len, i, c);
    SiftDownBelow(a, len, i, c);
  }

  lemma SiftDownEdges(a: seq<int>, len: int, i: int, c: int)
    requires 0 <= i < c < len <= |a| && (c == 2 * i + 1 || c == 2 * i + 2)
    requires HeapBelowBroken(a, len, i) && a[c] < a[i]
    requires 2 * i + 1 < len ==> a[c] <= a[2 * i + 1]
    requires 2 * i + 2 < len ==> a[c] <= a[2 * i + 2]
    ensures forall j :: 0 < j < len && Parent(j) != c ==> a[i := a[c]][c := a[i]][Parent(j)] <= a[i := a[c]][c := a[i]][j]
  {
    var b := a[i := a[c]][c := a[i]];
    ParentOfChildren(i);
    forall j | 0 < j < len && Parent(j) != c
      ensures b[Parent(j)] <= b[j]
    {
      ChildrenOfParent(j);
      if j == c {
      } else if Parent(j) == i {
        assert b[j] == a[j] && b[i] == a[c];
      } else {
        assert b[j] == a[j] || j == i;
      }
    }
  }

  lemma SiftDownBelow(a: seq<int>, len: int, i: int, c: int)
    requires 0 <= i < c < len <= |a| && (c == 2 * i + 1 || c == 2 * i + 2)
    requires HeapBelowBroken(a, len, i) && a[c] < a[i]
    ensures forall j :: 0 < j < len && Parent(j) == c ==> a[i := a[c]][c := a[i]][Parent(c)] <= a[i := a[c]][c := a[i]][j]
  {
    var b := a[i := a[c]][c := a[i]];
    ParentOfChildren(i);
    forall j | 0 < j < len && Parent(j) == c
      ensures b[Parent(c)] <= b[j]
    {
      ChildrenOfParent(j);
      assert b[j] == a[j] && b[Parent(c)] == a[c];
    }
  }

  lemma ParentBelow(j: int)
    requires j > 0
    ensures 0 <= Parent(j) < j
  {
  }

  /** Writing `n` just past a heap breaks at most the edge above the new slot. */
  lemma PlaceAtEnd(a: seq<int>, len: int, n: int)
    requires 0 <= len < |a| && IsMinHeap(a, len)
    ensures HeapAboveBroken(a[len := n], len + 1, len)
    ensures multiset(a[len := n][..len + 1]) == multiset(a[..len]) + multiset{n}
    ensures a[len := n][len + 1..] == a[len + 1..]
  {
    var b := a[len := n];
    forall j | 0 < j < len + 1 && j != len ensures b[Parent(j)] <= b[j] {
      ParentBelow(j);
    }
    forall j | 0 < j < len + 1 ensures Parent(j) != len {
      ParentBelow(j);
    }
    assert b[..len + 1] == a[..len] + [n];
  }

  /** The root bounds every element of the heap. */
  lemma RootBoundsAll(a: seq<int>, len: int)
    requires 1 <= len <= |a| && IsMinHeap(a, len)
    ensures forall x :: x in multiset(a[..len]) ==> a[0] <= x
  {
    forall x | x in multiset(a[..len]) ensures a[0] <= x {
      var j :| 0 <= j < len && a[..len][j] == x;
      RootIsMin(a, len, j);
    }
  }

  /** Moving the last element to the root leaves a heap broken only below the root, one element short. */
  lemma MoveLastToRoot(a: seq<int>, len: int)
    requires 2 <= len <= |a| && IsMinHeap(a, len)
    ensures HeapBelowBroken(a[0 := a[len - 1]], len - 1, 0)
    ensures a[0 := a[len - 1]][len - 1..] == a[len - 1..]
    ensures multiset(a[0 := a[len - 1]][..len - 1]) + multiset{a[0]} == multiset(a[..len])
  {
    var b := a[0 := a[len - 1]];
    assert b[..len - 1] == a[..len - 1][0 := a[len - 1]];
    assert a[..len] == a[..len - 1] + [a[len - 1]];
    forall j | 0 < j < len - 1 && Parent(j) != 0 ensures b[Parent(j)] <= b[j] {
      ParentBelow(j);
    }
  }

  /** A sifted-up slot at the root, or no smaller than its parent, leaves a whole heap. */
  lemma SiftUpDone(a: seq<int>, len: int, i: int)
    requires 0 <= i < len <= |a| && HeapAboveBroken(a, len, i)
    requires i > 0 ==> a[Parent(i)] <= a[i]
    ensures IsMinHeap(a, len)
  {
  }

  /** Swapping two slots below `len` keeps the multiset of the first `len` slots and all later slots. */
  lemma SwapKeeps(a: seq<int>, len: int, i: int, c: int)
    requires 0 <= i < len && 0 <= c < len && len <= |a|
    ensures multiset(a[i := a[c]][c := a[i]][..len]) == multiset(a[..len])
    ensures a[i := a[c]][c := a[i]][len..] == a[len..]
  {
    assert a[i := a[c]][c := a[i]][..len] == a[..len][i := a[c]][c := a[i]];
    SwapMultiset(a[..len], i, c);
  }

  /** A slot no smaller than its children, or without children, leaves a whole heap. */
  lemma SiftDownDone(a: seq<int>, len: int, i: int)
    requires 0 <= i < len <= |a| && HeapBelowBroken(a, len, i)
    requires 2 * i + 1 < len ==> a[i] <= a[2 * i + 1]
    requires 2 * i + 2 < len ==> a[i] <= a[2 * i + 2]
    ensures IsMinHeap(a, len)
  {
    forall j | 0 < j < len ensures a[Parent(j)] <= a[j] {
      if Parent(j) == i {
        assert j == 2 * i + 1 || j == 2 * i + 2;
      }
    }
  }

  /** One sift-up swap of slot `i` with its larger parent moves the broken spot to the parent. */
  lemma SiftUpStep(a: seq<int>, len: int, i: int)
    requires 0 < i < len <= |a| && HeapAboveBroken(a, len, i) && a[Parent(i)] > a[i]
    ensures HeapAboveBroken(a[i := a[Parent(i)]][Parent(i) := a[i]], len, Parent(i))
  {
    var p := Parent(i);
    var b := a[i := a[p]][p := a[i]];
    forall j | 0 < j < len && j != p
      ensures b[Parent(j)] <= b[j]
    {
      if Parent(j) == i {
        assert b[j] == a[j];
      } else if Parent(j) == p && j != i {
        assert b[j] == a[j];
      }
    }
  }

  /** The swap in `min_heapify`: slot `i` trades places with its smaller child `c`. */
  method SwapDown(heap: array<int>, len: int, i: int, c: int)
    requires 0 <= i < c < len <= heap.Length && (c == 2 * i + 1 || c == 2 * i + 2)
    requires HeapBelowBroken(heap[..], len, i) && heap[c] < heap[i]
    requires 2 * i + 1 < len ==> heap[c] <= heap[2 * i + 1]
    requires 2 * i + 2 < len ==> heap[c] <= heap[2 * i + 2]
    modifies heap
    ensures HeapBelowBroken(heap[..], len, c)
    ensures multiset(heap[..len]) == multiset(old(heap[..len]))
    ensures heap[len..] == old(heap[len..])
  {
    ghost var before := heap[..];
    var t := heap[i];
    heap[i] := heap[c];
    heap[c] := t;
    assert heap[..] == before[i := before[c]][c := before[i]];
    SiftDownStep(before, len, i, c);
    SwapKeeps(before, len, i, c);
  }

  /** The swap in `insert_min`: slot `i` trades places with its larger parent. */
  method SwapUp(heap: array<int>, len: int, i: int)
    requires 0 < i < len <= heap.Length && HeapAboveBroken(heap[..], len, i) && heap[Parent(i)] > heap[i]
    modifies heap
    ensures HeapAboveBroken(heap[..], len, Parent(i))
    ensures multiset(heap[..len]) == multiset(old(heap[..len]))
    ensures heap[len..] == old(heap[len..])
  {
    ghost var before := heap[..];
    var p := Parent(i);
    var t := heap[i];
    heap[i] := heap[p];
    heap[p] := t;
    assert heap[..] == before[i := before[p]][p := before[i]];
    SiftUpStep(before, len, i);
    SwapKeeps(before, len, i, p);
  }

  /**
   * `min_heapify`: sift the value at slot `i` down, swapping it with its
   * smaller child while that child is smaller. The do-while also stops once
   * `i` reaches `(len - 1) & ~1`, past which no slot has a child.
   */
  method MinHeapify(heap: array<int>, len: int, i0: int)
    requires 0 <= i0 < len <= heap.Length
    requires HeapBelowBroken(heap[..], len, i0)
    modifies heap
    ensures IsMinHeap(heap[..], len)
    ensures multiset(heap[..len]) == multiset(old(heap[..len]))
    ensures heap[len..] == old(heap[len..])
  {
    var i := i0;
    while true
      invariant 0 <= i < len
      invariant HeapBelowBroken(heap[..], len, i)
      invariant multiset(heap[..len]) == multiset(old(heap[..len]))
      invariant heap[len..] == old(heap[len..])
      decreases len - i
    {
      var left := 2 * i + 1;
      var right := 2 * i + 2;
      var smallest := i;
      if left < len && heap[left] < heap[smallest] {
        smallest := left;
      }
      if right < len && heap[right] < heap[smallest] {
        smallest := right;
      }
      if smallest != i {
        SwapDown(heap, len, i, smallest);
        i := smallest;
      } else {
        SiftDownDone(heap[..], len, i);
        return;
      }
      if !(i < EvenFloor(len - 1)) {
        SiftDownDone(heap[..], len, i);
        return;
      }
    }
  }

  /**
   * `delete_min`: nothing on an empty heap; otherwise the last element
   * replaces the root, which is the minimum, and is sifted down.
   */
  method DeleteMin(heap: array<int>, len: int) returns (newLen: int)
    requires 0 <= len <= heap.Length && IsMinHeap(heap[..], len)
    modifies heap
    ensures len < 1 ==> newLen == len && heap[..] == old(heap[..])
    ensures len >= 1 ==> newLen == len - 1
    ensures len >= 1 ==> multiset(heap[..newLen]) + multiset{old(heap[0])} == multiset(old(heap[..len]))
    ensures len >= 1 ==> forall x :: x in multiset(old(heap[..len])) ==> old(heap[0]) <= x
    ensures 0 <= newLen && IsMinHeap(heap[..], newLen)
    ensures heap[newLen..] == old(heap[newLen..])
  {
    if len < 1 {
      return len;
    }
    RootBoundsAll(heap[..], len);
    newLen := len - 1;
    if newLen > 0 {
      ghost var before := heap[..];
      heap[0] := heap[newLen];
      assert HeapBelowBroken(heap[..], newLen, 0) && heap[newLen..] == before[newLen..] &&
             multiset(heap[..newLen]) + multiset{before[0]} == multiset(before[..len]) by {
        assert heap[..] == before[0 := before[newLen]];
        MoveLastToRoot(before, len);
      }
      MinHeapify(heap, newLen, 0);
    } else {
      assert old(heap[..len]) == [old(heap[0])];
    }
  }

  /** `slot` is a cell of a buffer of `length` cells. */
  predicate SlotInBuffer(slot: int, length: int)
  {
    0 <= slot < length
  }

  /**
   * `insert_min`: place `n` in slot `len` and sift it up while its parent
   * is larger. The caller must have room for one more element.
   */
  method InsertMin(heap: array<int>, len: int, n: int) returns (newLen: int)
    requires SlotInBuffer(len, heap.Length) && IsMinHeap(heap[..], len)
    modifies heap
    ensures newLen == len + 1
    ensures IsMinHeap(heap[..], newLen)
    ensures multiset(heap[..newLen]) == multiset(old(heap[..len])) + multiset{n}
    ensures heap[newLen..] == old(heap[newLen..])
  {
    var i := len;
    var parent := Parent(i);
    ghost var start := heap[..];
    heap[i] := n;
    assert HeapAboveBroken(heap[..], len + 1, len) && heap[len + 1..] == old(heap[len + 1..]) &&
           multiset(heap[..len + 1]) == multiset(old(heap[..len])) + multiset{n} by {
      assert heap[..] == start[len := n];
      PlaceAtEnd(start, len, n);
    }
    while i > 0 && heap[parent] > heap[i]
      invariant 0 <= i <= len && parent == Parent(i)
      invariant HeapAboveBroken(heap[..], len + 1, i)
      invariant multiset(heap[..len + 1]) == multiset(old(heap[..len])) + multiset{n}
      invariant heap[len + 1..] == old(heap[len + 1..])
      decreases i
    {
      SwapUp(heap, len + 1, i);
      i := parent;
      parent := Parent(i);
    }
    SiftUpDone(heap[..], len + 1, i);
    newLen := len + 1;
  }

  /**
   * `topk_heap`: when the heap is full, delete the minimum, then insert
   * `n`. The minimum goes even when `n` is smaller than it. The heap must
   * hold at least one slot.
   */
  method TopkHeap(heap: array<int>, curLength: int, maxLength: int, n: int) returns (newLength: int)
    requires 1 <= maxLength <= heap.Length && 0 <= curLength <= maxLength
    requires IsMinHeap(heap[..], curLength)
    modifies heap
    ensures newLength == if curLength + 1 < maxLength then curLength + 1 else maxLength
    ensures IsMinHeap(heap[..], newLength)
    ensures curLength < maxLength ==>
      multiset(heap[..newLength]) == multiset(old(heap[..curLength])) + multiset{n}
    ensures curLength == maxLength ==>
      multiset(heap[..newLength]) + multiset{old(heap[0])} == multiset(old(heap[..curLength])) + multiset{n}
    ensures n in multiset(heap[..newLength])
    ensures newLength == TopkWriteSlot(curLength, maxLength) + 1
  {
    var len := curLength;
    if len >= maxLength {
      len := DeleteMin(heap, len);
    }
    assert len == TopkWriteSlot(curLength, maxLength);
    newLength := InsertMin(heap, len, n);
  }

  /**
   * The slot `insert_min` writes when `topk_heap` is called with `cur`
   * entries and capacity `max`: after the delete of a full heap (which does
   * nothing on an empty one) it is the current length. It lies inside the
   * buffer exactly when the buffer has a slot.
   */
  function TopkWriteSlot(cur: int, max: int): (slot: int)
    ensures 0 <= cur <= max ==> (SlotInBuffer(slot, max) <==> max >= 1)
  {
    if cur >= max && cur >= 1 then cur - 1 else cur
  }

  /**
   * With a capacity of zero (the truncated CDS size of a scan with fewer
   * entries than `1 / cds_percent`), `topk_heap` writes slot 0 of an empty
   * buffer: a slot outside the buffer, which `InsertMin` refuses.
   */
  lemma TopkZeroCapacityWritesPastBuffer()
    ensures TopkWriteSlot(0, 0) == 0
    ensures !SlotInBuffer(TopkWriteSlot(0, 0), 0)
  {
  }

  /**
   * As written, a full heap of capacity 1 holding 5 that is offered 1 ends
   * up holding 1: the larger count is evicted.
   */
  method TopkHeapEvictsLargerCount() returns (kept: int)
    ensures kept == 1
  {
    var heap := new int[1];
    assert heap[..0] == [];
    var len := TopkHeap(heap, 0, 1, 5);
    len := TopkHeap(heap, len, 1, 1);
    assert heap[..len] == [heap[0]];
    kept := heap[0];
  }

  /**
   * Top-k selection as intended: a full heap only takes `n` in place of
   * its minimum when `n` is larger, and a heap without slots takes nothing.
   * What leaves (`dropped`) is never larger than what stays.
   */
  method TopkPush(heap: array<int>, curLength: int, maxLength: int, n: int) returns (newLength: int, dropped: multiset<int>)
    requires 0 <= curLength <= maxLength <= heap.Length
    requires IsMinHeap(heap[..], curLength)
    modifies heap
    ensures newLength == if curLength + 1 < maxLength then curLength + 1 else maxLength
    ensures IsMinHeap(heap[..], newLength)
    ensures |dropped| <= 1 && (curLength < maxLength ==> dropped == multiset{})
    ensures multiset(heap[..newLength]) + dropped == multiset(old(heap[..curLength])) + multiset{n}
    ensures forall y, x :: y in dropped && x in multiset(heap[..newLength]) ==> y <= x
    ensures curLength == maxLength ==> forall y :: LowerBound(y, multiset(old(heap[..curLength]))) ==>
                                                   LowerBound(y, multiset(heap[..newLength]))
  {
    if maxLength < 1 {
      return curLength, multiset{n};
    }
    var len := curLength;
    dropped := multiset{};
    if len >= maxLength {
      RootBoundsAll(heap[..], len);
      if n <= heap[0] {
        return len, multiset{n};
      }
      var least := heap[0];
      len := DeleteMin(heap, len);
      dropped := multiset{least};
    }
    ghost var kept := multiset(heap[..len]);
    newLength := InsertMin(heap, len, n);
  }

  /** The intended selection keeps the larger count: the same two offers leave 5. */
  method TopkPushKeepsLargerCount() returns (kept: int)
    ensures kept == 5
  {
    var heap := new int[1];
    assert heap[..0] == [];
    var len, dropped := TopkPush(heap, 0, 1, 5);
    assert len == 1;
    assert dropped == multiset{};
    assert multiset(heap[..len]) + dropped == multiset{5};
    assert heap[..len] == [heap[0]];
    assert multiset(heap[..len]) == multiset{5};
    len, dropped := TopkPush(heap, len, 1, 1);
    assert heap[..len] == [heap[0]];
    kept := heap[0];
    assert multiset{kept} + dropped == multiset{5, 1};
    assert kept in multiset{5, 1} && (5 in dropped ==> 5 <= kept);
  }
}
