/** The growable array heap: slots 1..size hold the orders, slot i's father is slot i / 2.
    Insertion and removal move a hole through the array instead of swapping. */
module BinaryHeaps {
  import opened Orders
  import opened PriorityBook

  /** Slot i does not precede slot j. */
  ghost predicate Behind(d: Direction, h: seq<Order>, i: nat, j: nat) {
    i < |h| && j < |h| && !Before(d, h[i], h[j])
  }

  /** No slot of h precedes its father. */
  ghost predicate Ordered(d: Direction, h: seq<Order>, n: nat) {
    n < |h| && forall i :: 2 <= i <= n ==> Behind(d, h, i, i / 2)
  }

  /** The orders in slots 1..n. */
  ghost function Slots(h: seq<Order>, n: nat): multiset<Order>
    requires n < |h|
  {
    multiset(h[1..n + 1])
  }

  lemma SlotsUpdate(h: seq<Order>, n: nat, i: nat, x: Order)
    requires 1 <= i <= n < |h|
    ensures Slots(h[i := x], n) == Slots(h, n) - multiset{h[i]} + multiset{x}
    ensures h[i] in Slots(h, n)
  {
    var t := h[1..n + 1];
    assert h[i := x][1..n + 1] == t[i - 1 := x];
    assert t[i - 1] == h[i];
  }

  lemma SlotsPrefix(h: seq<Order>, n: nat)
    requires 1 <= n < |h|
    ensures Slots(h, n) == Slots(h, n - 1) + multiset{h[n]}
  {
    assert h[1..n + 1] == h[1..n] + [h[n]];
  }

  /** Copying slot j over slot i and letting the hole value x move from i to j. */
  lemma MoveHole(h: seq<Order>, n: nat, i: nat, j: nat, x: Order)
    requires 1 <= i <= n < |h| && 1 <= j <= n && i != j
    ensures Slots(h[i := h[j]][j := x], n) == Slots(h[i := x], n)
  {
    var g := h[i := h[j]];
    SlotsUpdate(h, n, i, h[j]);
    SlotsUpdate(g, n, j, x);
    SlotsUpdate(h, n, i, x);
  }

  lemma {:induction false} RootIsBest(d: Direction, h: seq<Order>, n: nat, i: nat)
    requires 1 <= i <= n < |h| && Ordered(d, h, n)
    ensures !Before(d, h[i], h[1])
    decreases i
  {
    if i > 1 {
      assert Behind(d, h, i, i / 2);
      RootIsBest(d, h, n, i / 2);
    }
  }

  lemma TopIsBest(d: Direction, h: seq<Order>, n: nat)
    requires 1 <= n < |h| && Ordered(d, h, n)
    ensures h[1] in Slots(h, n) && Best(d, h[1], Slots(h, n))
  {
    assert h[1] == h[1..n + 1][0];
    forall o | o in Slots(h, n) ensures !Before(d, o, h[1]) {
      var k :| 0 <= k < n && h[1..n + 1][k] == o;
      RootIsBest(d, h, n, k + 1);
    }
  }

  /** Orders with the same keys in the same slots are in the same order. */
  lemma SameKeysOrdered(d: Direction, h: seq<Order>, g: seq<Order>, n: nat)
    requires Ordered(d, h, n) && n < |g|
    requires forall i :: 1 <= i <= n ==> SameKey(h[i], g[i])
    ensures Ordered(d, g, n)
  {
    forall k | 2 <= k <= n ensures Behind(d, g, k, k / 2) {
      assert Behind(d, h, k, k / 2);
    }
  }

  // ------------------------------------------------------ the hole moving up

  /** x belongs somewhere on the path from slot i to the root; all other slots are in order. */
  ghost predicate UpHole(d: Direction, h: seq<Order>, n: nat, i: nat, x: Order) {
    && 1 <= i <= n < |h|
    && (forall k :: 2 <= k <= n && k != i && k / 2 != i ==> Behind(d, h, k, k / 2))
    && (forall k :: i < k <= n && k / 2 == i ==> !Before(d, h[k], x) && (i > 1 ==> Behind(d, h, k, i / 2)))
  }

  lemma UpHoleBounds(d: Direction, h: seq<Order>, n: nat, i: nat, x: Order)
    requires UpHole(d, h, n, i, x)
    ensures 1 <= i <= n < |h|
  {
  }

  lemma UpStep(d: Direction, h: seq<Order>, n: nat, i: nat, x: Order)
    requires UpHole(d, h, n, i, x) && i > 1 && Before(d, x, h[i / 2])
    ensures UpHole(d, h[i := h[i / 2]], n, i / 2, x)
    ensures Slots(h[i := h[i / 2]][i / 2 := x], n) == Slots(h[i := x], n)
  {
    MoveHole(h, n, i, i / 2, x);
    var j := i / 2;
    var g := h[i := h[j]];
    forall k | 2 <= k <= n && k != j && k / 2 != j ensures Behind(d, g, k, k / 2) {
      assert if k / 2 == i then Behind(d, h, k, j) else Behind(d, h, k, k / 2);
    }
    forall k | j < k <= n && k / 2 == j ensures !Before(d, g[k], x) && (j > 1 ==> Behind(d, g, k, j / 2)) {
      assert k != i ==> Behind(d, h, k, k / 2);
      assert j > 1 ==> Behind(d, h, j, j / 2);
    }
  }

  lemma UpDone(d: Direction, h: seq<Order>, n: nat, i: nat, x: Order)
    requires UpHole(d, h, n, i, x) && (i > 1 ==> !Before(d, x, h[i / 2]))
    ensures Ordered(d, h[i := x], n)
  {
    forall k | 2 <= k <= n ensures Behind(d, h[i := x], k, k / 2) {
      assert k != i && k / 2 != i ==> Behind(d, h, k, k / 2);
    }
  }

  // ---------------------------------------------------- the hole moving down

  /** x belongs at slot i or below it; all other slots are in order. */
  ghost predicate DownHole(d: Direction, h: seq<Order>, n: nat, i: nat, x: Order) {
    && 1 <= i <= n < |h|
    && (forall k :: 2 <= k <= n && k != i && k / 2 != i ==> Behind(d, h, k, k / 2))
    && (i > 1 ==> !Before(d, x, h[i / 2]))
    && (forall k :: i < k <= n && k / 2 == i && i > 1 ==> Behind(d, h, k, i / 2))
  }

  /** c is the child of slot i that goes up if one does. */
  ghost predicate BestChild(d: Direction, h: seq<Order>, n: nat, i: nat, c: nat) {
    && 2 <= c <= n < |h| && c / 2 == i
    && (forall k :: 2 <= k <= n && k / 2 == i ==> Behind(d, h, k, c))
  }

  lemma DownStep(d: Direction, h: seq<Order>, n: nat, i: nat, c: nat, x: Order)
    requires DownHole(d, h, n, i, x) && BestChild(d, h, n, i, c) && !Before(d, x, h[c])
    ensures DownHole(d, h[i := h[c]], n, c, x)
    ensures Slots(h[i := h[c]][c := x], n) == Slots(h[i := x], n)
  {
    MoveHole(h, n, i, c, x);
    var g := h[i := h[c]];
    forall k | 2 <= k <= n && k != c && k / 2 != c ensures Behind(d, g, k, k / 2) {
      if k == i {
        assert Behind(d, h, c, i / 2);
      } else if k / 2 == i {
        assert Behind(d, h, k, c);
      } else {
        assert Behind(d, h, k, k / 2);
      }
    }
    forall k | c < k <= n && k / 2 == c ensures Behind(d, g, k, c / 2) {
      assert Behind(d, h, k, k / 2);
    }
  }

  lemma ChooseChild(d: Direction, h: seq<Order>, n: nat, i: nat, c: nat)
    requires 1 <= i && 2 * i <= n < |h|
    requires c == if 2 * i < n && Before(d, h[2 * i + 1], h[2 * i]) then 2 * i + 1 else 2 * i
    ensures BestChild(d, h, n, i, c)
  {
    forall k | 2 <= k <= n && k / 2 == i ensures Behind(d, h, k, c) {
      assert k == 2 * i || k == 2 * i + 1;
    }
  }

  lemma DownDone(d: Direction, h: seq<Order>, n: nat, i: nat, c: nat, x: Order)
    requires DownHole(d, h, n, i, x)
    requires 2 * i <= n ==> BestChild(d, h, n, i, c) && Before(d, x, h[c])
    ensures Ordered(d, h[i := x], n)
  {
    forall k | 2 <= k <= n ensures Behind(d, h[i := x], k, k / 2) {
      if k / 2 == i {
        assert Behind(d, h, k, c);
      } else if k != i {
        assert Behind(d, h, k, k / 2);
      }
    }
  }

  lemma NoSlots(d: Direction, h: seq<Order>)
    requires h != []
    ensures Ordered(d, h, 0) && Slots(h, 0) == multiset{}
  {
  }

  /** Another volume of the first order changes neither its priority nor any other order. */
  lemma VolumeEdit(d: Direction, h: seq<Order>, n: nat, top: Order)
    requires 1 <= n < |h| && Ordered(d, h, n) && SameKey(top, h[1])
    ensures Ordered(d, h[1 := top], n) && Slots(h[1 := top], n) == Slots(h, n) - multiset{h[1]} + multiset{top}
  {
    hide Slots;
    SlotsUpdate(h, n, 1, top);
    SameKeysOrdered(d, h, h[1 := top], n);
  }

  class BinaryHeap {
    const side: Direction
    var heapArray: array<Order>
    var capacity: nat
    var size: nat

    ghost predicate Valid()
      reads this, heapArray
    {
      && 1 <= capacity && heapArray.Length == capacity + 1 && size <= capacity
      && Ordered(side, heapArray[..], size)
    }

    ghost function Repr(): set<object>
      reads this
    {
      {this, heapArray}
    }

    /** The resting orders. */
    ghost function Elems(): multiset<Order>
      requires Valid()
      reads this, heapArray
    {
      Slots(heapArray[..], size)
    }

    constructor (capacity: nat, side: Direction)
      requires capacity >= 1
      ensures Valid() && Elems() == multiset{} && this.side == side && fresh(heapArray)
    {
      this.capacity := capacity;
      this.side := side;
      size := 0;
      heapArray := new Order[capacity + 1];
    }

    predicate IsEmpty()
      requires Valid()
      reads this, heapArray
      ensures IsEmpty() <==> Elems() == multiset{}
    {
      assert size > 0 ==> heapArray[..][1] in Slots(heapArray[..], size) by {
        if size > 0 { TopIsBest(side, heapArray[..], size); }
      }
      size == 0
    }

    function Top(): (t: Order)
      requires Valid() && !IsEmpty()
      reads this, heapArray
      ensures t in Elems() && Best(side, t, Elems())
    {
      TopIsBest(side, heapArray[..], size);
      heapArray[1]
    }

    /** Doubles the capacity. */
    method Grow()
      requires Valid()
      modifies this
      ensures Valid() && size == old(size) < capacity && fresh(heapArray)
      ensures Elems() == old(Elems())
    {
      ghost var h := heapArray[..];
      capacity := capacity * 2;
      var newHeapArray := new Order[capacity + 1];
      forall i | 0 <= i <= size {
        newHeapArray[i] := heapArray[i];
      }
      assert newHeapArray[..][1..size + 1] == h[1..size + 1];
      SameKeysOrdered(side, h, newHeapArray[..], size);
      heapArray := newHeapArray;
    }

    method Insert(value: Order)
      requires Valid()
      modifies Repr()
      ensures Valid() && Elems() == old(Elems()) + multiset{value}
      ensures heapArray == old(heapArray) || fresh(heapArray)
    {
      hide Ordered, Slots, UpHole;
      if size == capacity {
        Grow();
      }
      InsertStart(heapArray[..], size + 1, value);
      size := size + 1;
      SiftUp(value);
    }

    /** Moves the hole at the last slot up and puts `value` into it. */
    method SiftUp(value: Order)
      requires heapArray.Length == capacity + 1 && size <= capacity
      requires UpHole(side, heapArray[..], size, size, value)
      modifies heapArray
      ensures Ordered(side, heapArray[..], size)
      ensures Slots(heapArray[..], size) == old(Slots(heapArray[..][size := value], size))
    {
      hide UpHole, Slots, Ordered;
      UpHoleBounds(side, heapArray[..], size, size, value);
      var index: nat := size;
      var father := index / 2;
      while index > 1 && Before(side, value, heapArray[father])
        invariant father == index / 2 && 1 <= index <= size
        invariant UpHole(side, heapArray[..], size, index, value)
        invariant Slots(heapArray[..][index := value], size) == old(Slots(heapArray[..][size := value], size))
        decreases index
      {
        UpStep(side, heapArray[..], size, index, value);
        heapArray[index] := heapArray[father];
        index := father;
        father := father / 2;
      }
      UpDone(side, heapArray[..], size, index, value);
      heapArray[index] := value;
    }

    lemma InsertStart(h: seq<Order>, n: nat, x: Order)
      requires 1 <= n < |h| && Ordered(side, h, n - 1)
      ensures UpHole(side, h, n, n, x) && Slots(h[n := x], n) == Slots(h, n - 1) + multiset{x}
    {
      SlotsPrefix(h[n := x], n);
      assert h[n := x][1..n] == h[1..n];
    }

    method Pop() returns (top: Order)
      requires Valid() && !IsEmpty()
      modifies Repr()
      ensures Valid() && top == old(Top()) && Elems() == old(Elems()) - multiset{top}
      ensures heapArray == old(heapArray)
    {
      hide Ordered, Slots, DownHole;
      SizePositive();
      top := heapArray[1];
      PopStart(heapArray[..], size);
      var last := heapArray[size];
      size := size - 1;
      if size == 0 {
        heapArray[1] := last;
        NoSlots(side, heapArray[..]);
      } else {
        SiftDown(last);
      }
    }

    /** Moves the hole at the root down and puts `last` into it. */
    method SiftDown(last: Order)
      requires heapArray.Length == capacity + 1 && size <= capacity && 1 <= size
      requires DownHole(side, heapArray[..], size, 1, last)
      modifies heapArray
      ensures Ordered(side, heapArray[..], size)
      ensures Slots(heapArray[..], size) == old(Slots(heapArray[..][1 := last], size))
    {
      hide DownHole, BestChild, Slots, Ordered;
      var index: nat := 1;
      var maxChild: nat := 2;
      while maxChild <= size
        invariant maxChild == 2 * index && 1 <= index <= size
        invariant DownHole(side, heapArray[..], size, index, last)
        invariant Slots(heapArray[..][index := last], size) == old(Slots(heapArray[..][1 := last], size))
        decreases size - index
      {
        if maxChild < size && Before(side, heapArray[maxChild + 1], heapArray[maxChild]) {
          maxChild := maxChild + 1;
        }
        ChooseChild(side, heapArray[..], size, index, maxChild);
        if Before(side, last, heapArray[maxChild]) {
          break;
        }
        DownStep(side, heapArray[..], size, index, maxChild, last);
        heapArray[index] := heapArray[maxChild];
        index := maxChild;
        maxChild := maxChild * 2;
      }
      DownDone(side, heapArray[..], size, index, maxChild, last);
      heapArray[index] := last;
    }

    lemma PopStart(h: seq<Order>, n: nat)
      requires 1 <= n < |h| && Ordered(side, h, n)
      ensures n == 1 ==> Slots(h, n) - multiset{h[1]} == multiset{}
      ensures n > 1 ==> DownHole(side, h, n - 1, 1, h[n])
      ensures n > 1 ==> Slots(h[1 := h[n]], n - 1) == Slots(h, n) - multiset{h[1]}
    {
      SlotsPrefix(h, n);
      if n > 1 {
        SlotsUpdate(h, n - 1, 1, h[n]);
      } else {
        assert h[1..1] == [];
      }
    }

    /** The in-place edit of the first order's volume. */
    method ReduceTop(v: int)
      requires Valid() && !IsEmpty()
      modifies heapArray
      ensures Valid() && !IsEmpty()
      ensures Top() == old(Top()).(volume := old(Top()).volume - v)
      ensures Elems() == old(Elems()) - multiset{old(Top())} + multiset{Top()}
    {
      hide Ordered, Slots;
      SizePositive();
      var top := heapArray[1].(volume := heapArray[1].volume - v);
      VolumeEdit(side, heapArray[..], size, top);
      heapArray[1] := top;
    }

    lemma SizePositive()
      requires Valid() && !IsEmpty()
      ensures size > 0 && Top() == heapArray[1]
    {
      hide Ordered, Slots;
    }

    /** Popping to the end gives all orders by priority. */
    method Drain() returns (popped: seq<Order>)
      requires Valid() && OnSide(side, Elems())
      modifies Repr()
      ensures Valid() && Elems() == multiset{} && multiset(popped) == old(Elems())
      ensures forall i, j :: 0 <= i < j < |popped| ==> !Before(side, popped[j], popped[i])
    {
      hide Valid, Elems, Top, IsEmpty, Before;
      popped := [];
      QueueStart(side, Elems());
      while !IsEmpty()
        invariant Valid() && OnSide(side, Elems()) && heapArray == old(heapArray)
        invariant Elems() + multiset(popped) == old(Elems()) && Queue(side, popped, Elems())
        decreases |Elems()|
      {
        QueuePop(side, popped, Elems(), Top());
        var top := Pop();
        popped := popped + [top];
      }
    }
  }
}
