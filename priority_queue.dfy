/**
 * A binary min-heap of (priority, value) nodes stored in a list, with a
 * membership table of values.  `insert` appends and sifts up; `pop` moves the
 * last leaf to the root, truncates and sifts down choosing the smaller child.
 */
module PriorityQueue {
  import opened Wrappers

  datatype HeapNode<T> = HeapNode(priority: int, value: T)

  // Tree navigation; `/` is floor division for the positive divisor, so the
  // root's parent is -1 as with Math.floor.
  function Parent(index: int): int { (index - 1) / 2 }
  function Left(index: int): int { 2 * index + 1 }
  function Right(index: int): int { 2 * index + 2 }

  lemma ParentOfChildren(i: int)
    requires i >= 0
    ensures Parent(Left(i)) == i && Parent(Right(i)) == i
    ensures i > 0 ==> 0 <= Parent(i) < i
  {
  }

  /** Every node's priority is at least its parent's. */
  ghost predicate IsMinHeap<T>(h: seq<HeapNode<T>>) {
    forall i {:trigger h[Parent(i)]} | 0 < i < |h| :: h[Parent(i)].priority <= h[i].priority
  }

  /** The values of the nodes, in heap order. */
  function ValueSeq<T>(h: seq<HeapNode<T>>): (s: seq<T>)
    ensures |s| == |h| && forall i | 0 <= i < |h| :: s[i] == h[i].value
  {
    seq(|h|, i requires 0 <= i < |h| => h[i].value)
  }

  /** In a min-heap the root has the least priority. */
  lemma {:induction false} HeapRootIsMin<T>(h: seq<HeapNode<T>>, i: int)
    requires IsMinHeap(h) && 0 <= i < |h|
    ensures h[0].priority <= h[i].priority
    decreases i
  {
    if i > 0 {
      HeapRootIsMin(h, Parent(i));
    }
  }

  lemma HeapRootIsMinAll<T>(h: seq<HeapNode<T>>)
    requires IsMinHeap(h) && |h| > 0
    ensures forall j | 0 <= j < |h| :: h[0].priority <= h[j].priority
  {
    forall j | 0 <= j < |h| ensures h[0].priority <= h[j].priority {
      HeapRootIsMin(h, j);
    }
  }

  function Swapped<T>(h: seq<HeapNode<T>>, a: int, b: int): seq<HeapNode<T>>
    requires 0 <= a < |h| && 0 <= b < |h|
  {
    h[a := h[b]][b := h[a]]
  }

  /** Exchanging two nodes keeps the multisets of nodes and of values. */
  lemma SwapPreserves<T>(h: seq<HeapNode<T>>, a: int, b: int)
    requires 0 <= a < |h| && 0 <= b < |h|
    ensures multiset(Swapped(h, a, b)) == multiset(h)
    ensures multiset(ValueSeq(Swapped(h, a, b))) == multiset(ValueSeq(h))
  {
    assert ValueSeq(Swapped(h, a, b)) == ValueSeq(h)[a := h[b].value][b := h[a].value];
  }

  /** Sift-up state: the heap order holds except between `c` and its parent,
      and `c`'s parent is no larger than `c`'s children. */
  ghost predicate UpInvariant<T>(h: seq<HeapNode<T>>, c: int) {
    && 0 <= c < |h|
    && (forall i {:trigger h[Parent(i)]} | 0 < i < |h| && i != c :: h[Parent(i)].priority <= h[i].priority)
    && (c > 0 ==> forall i | 0 < i < |h| && Parent(i) == c :: h[Parent(c)].priority <= h[i].priority)
  }

  /** Appending a node adds its value to the values of the heap. */
  lemma AppendValues<T>(h: seq<HeapNode<T>>, nd: HeapNode<T>)
    ensures multiset(ValueSeq(h + [nd])) == multiset(ValueSeq(h)) + multiset{nd.value}
  {
    assert ValueSeq(h + [nd]) == ValueSeq(h) + [nd.value];
  }

  lemma AppendStartsSiftUp<T>(h: seq<HeapNode<T>>, nd: HeapNode<T>)
    requires IsMinHeap(h)
    ensures UpInvariant(h + [nd], |h|)
  {
    var h' := h + [nd];
    forall i | 0 < i < |h'| ensures Parent(i) < |h| {
      ParentOfChildren(i);
    }
  }

  lemma SiftUpStep<T>(h: seq<HeapNode<T>>, c: int)
    requires UpInvariant(h, c) && c > 0
    requires h[Parent(c)].priority > h[c].priority
    ensures UpInvariant(Swapped(h, c, Parent(c)), Parent(c))
  {
    var p := Parent(c);
    var h' := Swapped(h, c, p);
    forall i | 0 < i < |h'| && i != p
      ensures h'[Parent(i)].priority <= h'[i].priority
    {
      if i == c {
      } else if Parent(i) == c {
      } else if Parent(i) == p {
        assert h[p].priority <= h[i].priority;
      }
    }
    if p > 0 {
      forall i | 0 < i < |h'| && Parent(i) == p
        ensures h'[Parent(p)].priority <= h'[i].priority
      {
        assert h[Parent(p)].priority <= h[p].priority;
        if i != c {
          assert h[p].priority <= h[i].priority;
        }
      }
    }
  }

  lemma SiftUpDone<T>(h: seq<HeapNode<T>>, c: int)
    requires UpInvariant(h, c)
    requires c == 0 || h[Parent(c)].priority <= h[c].priority
    ensures IsMinHeap(h)
  {
  }

  /** Sift-down state: the heap order holds except between `c` and its children,
      and `c`'s parent is no larger than `c`'s children. */
  ghost predicate DownInvariant<T>(h: seq<HeapNode<T>>, c: int) {
    && 0 <= c && (|h| > 0 ==> c < |h|)
    && (forall i {:trigger h[Parent(i)]} | 0 < i < |h| && Parent(i) != c :: h[Parent(i)].priority <= h[i].priority)
    && (c > 0 ==> forall i | 0 < i < |h| && Parent(i) == c :: h[Parent(c)].priority <= h[i].priority)
  }

  /** Moving the last leaf to the root and truncating starts the sift-down. */
  lemma PopStartsSiftDown<T>(h: seq<HeapNode<T>>)
    requires IsMinHeap(h) && |h| > 0
    ensures DownInvariant(Swapped(h, 0, |h| - 1)[..|h| - 1], 0)
  {
    var h' := Swapped(h, 0, |h| - 1)[..|h| - 1];
    forall i | 0 < i < |h'| && Parent(i) != 0
      ensures h'[Parent(i)].priority <= h'[i].priority
    {
      assert h'[i] == h[i] && h'[Parent(i)] == h[Parent(i)];
    }
  }

  /** What `pop` removes: the root, moved to the end by the swap; the rest is
      ready for the sift-down and has no priority below the root's. */
  lemma PopSplit<T>(h: seq<HeapNode<T>>)
    requires IsMinHeap(h) && |h| > 0
    ensures Swapped(h, 0, |h| - 1)[|h| - 1] == h[0]
    ensures DownInvariant(Swapped(h, 0, |h| - 1)[..|h| - 1], 0)
    ensures forall j | 0 <= j < |h| :: h[0].priority <= h[j].priority
    ensures var rest := Swapped(h, 0, |h| - 1)[..|h| - 1];
      && multiset(rest) + multiset{h[0]} == multiset(h)
      && multiset(ValueSeq(rest)) + multiset{h[0].value} == multiset(ValueSeq(h))
      && forall nd | nd in multiset(rest) :: h[0].priority <= nd.priority
  {
    HeapRootIsMinAll(h);
    PopStartsSiftDown(h);
    var h' := Swapped(h, 0, |h| - 1);
    var rest := h'[..|h| - 1];
    SwapPreserves(h, 0, |h| - 1);
    assert h' == rest + [h[0]];
    assert ValueSeq(h') == ValueSeq(rest) + [h[0].value];
    forall nd: HeapNode<T> | nd in multiset(rest) ensures h[0].priority <= nd.priority {
      assert nd in multiset(h);
    }
  }

  /** A lower bound on every node of the multiset bounds every position. */
  lemma BoundHoldsPositionwise<T>(h: seq<HeapNode<T>>, p: int)
    requires forall nd | nd in multiset(h) :: p <= nd.priority
    ensures forall j | 0 <= j < |h| :: p <= h[j].priority
  {
    forall j | 0 <= j < |h| ensures p <= h[j].priority {
      assert h[j] in multiset(h);
    }
  }

  /** The child the sift-down picks: the right one only when strictly smaller. */
  function SmallerChild<T>(h: seq<HeapNode<T>>, c: int): (r: int)
    requires 0 <= c && Left(c) < |h|
    ensures r == Left(c) || (r == Right(c) && Right(c) < |h|)
    ensures h[r].priority <= h[Left(c)].priority
    ensures Right(c) < |h| ==> h[r].priority <= h[Right(c)].priority
    ensures r == Right(c) ==> h[Right(c)].priority < h[Left(c)].priority
  {
    if Right(c) < |h| && h[Right(c)].priority < h[Left(c)].priority then Right(c) else Left(c)
  }

  lemma SiftDownStep<T>(h: seq<HeapNode<T>>, c: int)
    requires DownInvariant(h, c) && Left(c) < |h|
    requires !(h[SmallerChild(h, c)].priority > h[c].priority)
    ensures DownInvariant(Swapped(h, c, SmallerChild(h, c)), SmallerChild(h, c))
  {
    var s := SmallerChild(h, c);
    var h' := Swapped(h, c, s);
    ParentOfChildren(c);
    forall i | 0 < i < |h'| && Parent(i) != s
      ensures h'[Parent(i)].priority <= h'[i].priority
    {
      if i == s {
      } else if Parent(i) == c {
        assert i == Left(c) || i == Right(c);
      } else if i == c {
        assert h[Parent(c)].priority <= h[s].priority;
      }
    }
    forall i | 0 < i < |h'| && Parent(i) == s
      ensures h'[Parent(s)].priority <= h'[i].priority
    {
      assert Parent(s) == c;
      assert h[s].priority <= h[i].priority;
    }
  }

  lemma SiftDownDone<T>(h: seq<HeapNode<T>>, c: int)
    requires DownInvariant(h, c)
    requires Left(c) >= |h| || h[SmallerChild(h, c)].priority > h[c].priority
    ensures IsMinHeap(h)
  {
    forall i | 0 < i < |h| && Parent(i) == c
      ensures h[c].priority <= h[i].priority
    {
      ParentOfChildren(c);
      assert i == Left(c) || i == Right(c);
    }
  }

  class MinPriorityQueue<T(==,!new)> {
    var heap: seq<HeapNode<T>>
    var heapSet: set<T>

    /** The heap order holds, and every member of the table is the value of some node. */
    ghost predicate Valid()
      reads this
    {
      IsMinHeap(heap) && forall v | v in heapSet :: v in Values()
    }

    /** The multiset of values currently in the heap. */
    ghost function Values(): multiset<T>
      reads this
    {
      multiset(ValueSeq(heap))
    }

    constructor ()
      ensures Valid() && heap == [] && heapSet == {}
    {
      heap := [];
      heapSet := {};
    }

    method Swap(a: int, b: int)
      requires 0 <= a < |heap| && 0 <= b < |heap|
      modifies this
      ensures heap == Swapped(old(heap), a, b) && heapSet == old(heapSet)
      ensures multiset(heap) == old(multiset(heap)) && Values() == old(Values())
    {
      SwapPreserves(heap, a, b);
      heap := heap[a := heap[b]][b := heap[a]];
    }

    function IsEmpty(): (r: bool)
      reads this
      ensures r <==> Size() == 0
    {
      |heap| == 0
    }

    /** The value at the root, which has the least priority of all nodes. */
    function Peek(): (r: Option<T>)
      reads this
      requires Valid()
      ensures r.Some? <==> !IsEmpty()
      ensures r.Some? ==> r.value == heap[0].value &&
                          forall j | 0 <= j < |heap| :: heap[0].priority <= heap[j].priority
    {
      if IsEmpty() then None else HeapRootIsMinAll(heap); Some(heap[0].value)
    }

    function Size(): int
      reads this
    {
      |heap|
    }

    /** `size` counts the values in the heap, repeats included. */
    lemma SizeCountsValues()
      ensures Size() == |Values()| && (Size() == 0 <==> Values() == multiset{})
    {
    }

    /** Membership by the table. */
    predicate Has(item: T): (r: bool)
      reads this
    {
      item in heapSet
    }

    /** In a valid queue, a member by the table is the value of some node. */
    lemma HasIsQueued(item: T)
      ensures Valid() && Has(item) ==> item in Values()
    {
    }

    method Insert(item: T, itemPriority: int)
      requires Valid()
      modifies this
      ensures Valid()
      ensures Size() == old(Size()) + 1
      ensures multiset(heap) == old(multiset(heap)) + multiset{HeapNode(itemPriority, item)}
      ensures Values() == old(Values()) + multiset{item}
      ensures heapSet == old(heapSet) + {item} && Has(item)
    {
      var node := HeapNode(itemPriority, item);
      AppendValues(heap, node);
      AppendStartsSiftUp(heap, node);
      heap := heap + [node];
      heapSet := heapSet + {item};
      SiftUp(|heap| - 1);
    }

    /** The loop of `insert`: moves the node at `curIndex` up while its parent is larger. */
    method SiftUp(curIndex: int)
      requires UpInvariant(heap, curIndex)
      modifies this
      ensures IsMinHeap(heap) && |heap| == old(|heap|) && heapSet == old(heapSet)
      ensures multiset(heap) == old(multiset(heap)) && Values() == old(Values())
    {
      var cur := curIndex;
      while cur > 0
        invariant UpInvariant(heap, cur) && |heap| == old(|heap|) && heapSet == old(heapSet)
        invariant multiset(heap) == old(multiset(heap)) && Values() == old(Values())
      {
        var parentIndex := Parent(cur);
        if heap[parentIndex].priority <= heap[cur].priority {
          break;
        }
        SiftUpStep(heap, cur);
        Swap(cur, parentIndex);
        cur := parentIndex;
      }
      SiftUpDone(heap, cur);
    }

    method Pop() returns (r: Option<T>)
      requires Valid()
      modifies this
      ensures Valid()
      ensures old(IsEmpty()) ==> r == None && heap == old(heap) && heapSet == old(heapSet)
      ensures !old(IsEmpty()) ==> r == Some(old(heap)[0].value)
      ensures !old(IsEmpty()) ==> forall j | 0 <= j < |heap| :: old(heap)[0].priority <= heap[j].priority
      ensures !old(IsEmpty()) ==> Size() == old(Size()) - 1
      ensures !old(IsEmpty()) ==> multiset(heap) + multiset{old(heap)[0]} == old(multiset(heap))
      ensures !old(IsEmpty()) ==> Values() + multiset{old(heap)[0].value} == old(Values())
      ensures !old(IsEmpty()) ==> heapSet == old(heapSet) - {old(heap)[0].value}
      ensures r.Some? ==> !Has(r.value)
    {
      if IsEmpty() {
        return None;
      }
      PopSplit(heap);
      ghost var top, oldValues := heap[0], Values();
      Swap(0, |heap| - 1);
      var item := heap[|heap| - 1];
      heap := heap[..|heap| - 1];
      heapSet := heapSet - {item.value};
      SiftDown();
      BoundHoldsPositionwise(heap, top.priority);
      assert item == top && Values() + multiset{item.value} == oldValues;
      forall v | v in heapSet ensures v in Values() {
        assert v != item.value && v in oldValues;
      }
      r := Some(item.value);
    }

    /** The loop of `pop`: moves the root down while its smaller child is not larger. */
    method SiftDown()
      requires DownInvariant(heap, 0)
      modifies this
      ensures IsMinHeap(heap) && |heap| == old(|heap|) && heapSet == old(heapSet)
      ensures multiset(heap) == old(multiset(heap)) && Values() == old(Values())
    {
      var current := 0;
      while Left(current) < Size()
        invariant DownInvariant(heap, current) && |heap| == old(|heap|) && heapSet == old(heapSet)
        invariant multiset(heap) == old(multiset(heap)) && Values() == old(Values())
      {
        var smallerChild := Left(current);
        if Right(current) < Size() && heap[Right(current)].priority < heap[smallerChild].priority {
          smallerChild := Right(current);
        }
        if heap[smallerChild].priority > heap[current].priority {
          break;
        }
        SiftDownStep(heap, current);
        Swap(current, smallerChild);
        current := smallerChild;
      }
      SiftDownDone(heap, current);
    }
  }
}
