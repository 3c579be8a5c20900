/** The array heap of containers::PriorityQueue: the operations on the elements as functions and
    what they keep, then the class over its vector, whose storage keeps popped slots readable. */
module BinaryHeap {

  // ---------- the order ----------

  /** A strict weak order, as std::less or any other comparator must be.  (Triple is true of any
      three; it keeps the solver from chaining elements that no proof mentions.) */
  ghost predicate StrictWeak<T(!new)>(less: (T, T) -> bool) {
    && (forall x, y :: less(x, y) ==> !less(y, x))
    && (forall x, y, z {:trigger Triple(x, y, z)} :: Triple(x, y, z) && !less(x, y) && !less(y, z) ==> !less(x, z))
  }

  ghost predicate Triple<T>(x: T, y: T, z: T) { true }

  lemma NotLess<T(!new)>(less: (T, T) -> bool, x: T, y: T, z: T)
    requires StrictWeak(less) && !less(x, y) && !less(y, z)
    ensures !less(x, z)
  {
    assert Triple(x, y, z);
  }

  function Parent(i: nat): nat
    requires i > 0
  {
    (i - 1) / 2
  }

  function Child1(i: nat): nat { 2 * i + 1 }

  function Child2(i: nat): nat { 2 * i + 2 }

  /** No element is less than its parent. */
  ghost predicate Heap<T>(less: (T, T) -> bool, h: seq<T>) {
    forall i {:trigger Parent(i)} :: 0 < i < |h| ==> !less(h[i], h[Parent(i)])
  }

  // ---------- the operations ----------

  function Swap<T>(h: seq<T>, i: nat, j: nat): (g: seq<T>)
    requires i < |h| && j < |h|
    ensures |g| == |h|
    ensures g[i] == h[j] && g[j] == h[i] && forall k :: 0 <= k < |h| && k != i && k != j ==> g[k] == h[k]
  {
    h[i := h[j]][j := h[i]]
  }

  function SiftUp<T>(less: (T, T) -> bool, h: seq<T>, i: nat): (g: seq<T>)
    requires i < |h|
    ensures |g| == |h|
    decreases i
  {
    if i == 0 then h
    else if less(h[i], h[Parent(i)]) then SiftUp(less, Swap(h, i, Parent(i)), Parent(i))
    else h
  }

  /** The child to compare with: the second one unless it is missing or the first is less. */
  function SmallChild<T>(less: (T, T) -> bool, h: seq<T>, i: nat): nat
    requires Child1(i) < |h|
  {
    if Child2(i) >= |h| || less(h[Child1(i)], h[Child2(i)]) then Child1(i) else Child2(i)
  }

  function SiftDown<T>(less: (T, T) -> bool, h: seq<T>, i: nat): (g: seq<T>)
    requires i < |h|
    ensures |g| == |h|
    decreases |h| - i
  {
    if Child1(i) >= |h| then h
    else
      var s := SmallChild(less, h, i);
      if less(h[s], h[i]) then SiftDown(less, Swap(h, i, s), s) else h
  }

  /** Repair after slot i was overwritten.  For the root, the parent index underflows and the
      comparison reads below, whatever lies in front of the array. */
  function Reheap<T>(less: (T, T) -> bool, h: seq<T>, i: nat, below: T): (g: seq<T>)
    requires i < |h|
    ensures |g| == |h|
  {
    if less(h[i], if i == 0 then below else h[Parent(i)]) then SiftUp(less, h, i) else SiftDown(less, h, i)
  }

  function Push<T>(less: (T, T) -> bool, h: seq<T>, x: T): seq<T> {
    SiftUp(less, h + [x], |h|)
  }

  function Pop<T>(less: (T, T) -> bool, h: seq<T>): seq<T>
    requires h != []
  {
    if |h| == 1 then [] else SiftDown(less, h[..|h| - 1][0 := h[|h| - 1]], 0)
  }

  /** The last element is less than its parent, which only an array out of heap order can have. */
  predicate LightLast<T>(less: (T, T) -> bool, h: seq<T>, k: nat)
    requires k < |h|
  {
    k == |h| - 1 && k > 0 && less(h[k], h[Parent(k)])
  }

  /** A light last element is sifted up although its slot is gone already, so that its parent, swapped
      into that slot, is lost in its place. */
  function RemoveAt<T>(less: (T, T) -> bool, h: seq<T>, k: nat, below: T): seq<T>
    requires k < |h|
  {
    if LightLast(less, h, k) then SiftUp(less, h, k)[..k]
    else if k == |h| - 1 then h[..k]
    else Reheap(less, h[..|h| - 1][k := h[|h| - 1]], k, below)
  }

  /** The element that a removal takes. */
  function Taken<T>(less: (T, T) -> bool, h: seq<T>, k: nat): T
    requires k < |h|
  {
    if LightLast(less, h, k) then h[Parent(k)] else h[k]
  }

  /** The first slot whose element equals the one looked for, or the length. */
  function Find<T>(h: seq<T>, equals: T -> bool): (k: nat)
    ensures k <= |h| && (k < |h| ==> equals(h[k])) && forall i :: 0 <= i < k ==> !equals(h[i])
  {
    if h == [] || equals(h[0]) then 0 else 1 + Find(h[1..], equals)
  }

  function RemoveFirst<T>(less: (T, T) -> bool, h: seq<T>, equals: T -> bool, below: T): seq<T> {
    var k := Find(h, equals);
    if k < |h| then RemoveAt(less, h, k, below) else h
  }

  // ---------- the elements stay the same ----------

  lemma SwapElements<T>(h: seq<T>, i: nat, j: nat)
    requires i < |h| && j < |h|
    ensures multiset(Swap(h, i, j)) == multiset(h)
  {
  }

  lemma {:induction false} SiftUpElements<T>(less: (T, T) -> bool, h: seq<T>, i: nat)
    requires i < |h|
    ensures multiset(SiftUp(less, h, i)) == multiset(h)
    decreases i
  {
    if i > 0 && less(h[i], h[Parent(i)]) {
      SwapElements(h, i, Parent(i));
      SiftUpElements(less, Swap(h, i, Parent(i)), Parent(i));
    }
  }

  lemma {:induction false} SiftDownElements<T>(less: (T, T) -> bool, h: seq<T>, i: nat)
    requires i < |h|
    ensures multiset(SiftDown(less, h, i)) == multiset(h)
    decreases |h| - i
  {
    if Child1(i) < |h| && less(h[SmallChild(less, h, i)], h[i]) {
      SwapElements(h, i, SmallChild(less, h, i));
      SiftDownElements(less, Swap(h, i, SmallChild(less, h, i)), SmallChild(less, h, i));
    }
  }

  // ---------- what the operations keep ----------

  /** Heap order except possibly between i and its parent. */
  ghost predicate HeapAbove<T>(less: (T, T) -> bool, h: seq<T>, i: nat) {
    && (forall j {:trigger Parent(j)} :: 0 < j < |h| && j != i ==> !less(h[j], h[Parent(j)]))
    && (forall j {:trigger Parent(j)} :: 0 < j < |h| && Parent(j) == i && i > 0 ==> !less(h[j], h[Parent(i)]))
  }

  /** Heap order except possibly between i and its children. */
  ghost predicate HeapBelow<T>(less: (T, T) -> bool, h: seq<T>, i: nat) {
    && (forall j {:trigger Parent(j)} :: 0 < j < |h| && Parent(j) != i ==> !less(h[j], h[Parent(j)]))
    && (forall j {:trigger Parent(j)} :: 0 < j < |h| && Parent(j) == i && i > 0 ==> !less(h[j], h[Parent(i)]))
  }

  lemma {:induction false} SiftUpHeap<T(!new)>(less: (T, T) -> bool, h: seq<T>, i: nat)
    requires StrictWeak(less) && i < |h| && HeapAbove(less, h, i)
    ensures Heap(less, SiftUp(less, h, i))
    decreases i
  {
    if i > 0 && less(h[i], h[Parent(i)]) {
      var p := Parent(i);
      var g := Swap(h, i, p);
      forall j | 0 < j < |g| && j != p
        ensures !less(g[j], g[Parent(j)])
      {
        if Parent(j) == p && j != i {
          NotLess(less, h[j], h[p], h[i]);
        }
      }
      forall j | 0 < j < |g| && Parent(j) == p && p > 0
        ensures !less(g[j], g[Parent(p)])
      {
        assert !less(h[p], h[Parent(p)]);
        if j != i {
          NotLess(less, h[j], h[p], h[Parent(p)]);
        }
      }
      SiftUpHeap(less, g, p);
    }
  }

  lemma SmallChildIsLeast<T(!new)>(less: (T, T) -> bool, h: seq<T>, i: nat)
    requires StrictWeak(less) && Child1(i) < |h|
    ensures var s := SmallChild(less, h, i);
            && s < |h| && Parent(s) == i
            && forall j {:trigger Parent(j)} :: 0 < j < |h| && Parent(j) == i ==> !less(h[j], h[s])
  {
    assert forall j :: j > 0 && Parent(j) == i ==> j == Child1(i) || j == Child2(i);
    assert !less(h[Child1(i)], h[Child1(i)]);
    if Child2(i) < |h| {
      assert !less(h[Child2(i)], h[Child2(i)]);
    }
  }

  lemma {:induction false} SiftDownHeap<T(!new)>(less: (T, T) -> bool, h: seq<T>, i: nat)
    requires StrictWeak(less) && i < |h| && HeapBelow(less, h, i)
    ensures Heap(less, SiftDown(less, h, i))
    decreases |h| - i
  {
    if Child1(i) < |h| {
      var s := SmallChild(less, h, i);
      SmallChildIsLeast(less, h, i);
      if less(h[s], h[i]) {
        var g := Swap(h, i, s);
        assert Parent(s) == i;
        forall j | 0 < j < |g| && Parent(j) != s
          ensures !less(g[j], g[Parent(j)])
        {
          if j == i {
            assert !less(h[s], h[Parent(i)]);
          } else if Parent(j) == i {
            assert !less(h[j], h[s]);
          }
        }
        forall j | 0 < j < |g| && Parent(j) == s && s > 0
          ensures !less(g[j], g[Parent(s)])
        {
          assert !less(h[j], h[s]);
        }
        SiftDownHeap(less, g, s);
      } else {
        forall j | 0 < j < |h| && Parent(j) == i
          ensures !less(h[j], h[i])
        {
          NotLess(less, h[j], h[s], h[i]);
        }
      }
    }
  }

  lemma PushKeeps<T(!new)>(less: (T, T) -> bool, h: seq<T>, x: T)
    requires StrictWeak(less) && Heap(less, h)
    ensures Heap(less, Push(less, h, x))
    ensures multiset(Push(less, h, x)) == multiset(h) + multiset{x}
  {
    SiftUpHeap(less, h + [x], |h|);
    SiftUpElements(less, h + [x], |h|);
    assert multiset(h + [x]) == multiset(h) + multiset{x};
  }

  /** Filling slot k from the end of the array takes exactly the element of slot k away. */
  lemma FilledFromEnd<T>(h: seq<T>, k: nat)
    requires k < |h| - 1
    ensures multiset(h[..|h| - 1][k := h[|h| - 1]]) == multiset(h) - multiset{h[k]}
  {
    assert h == h[..|h| - 1] + [h[|h| - 1]];
  }

  lemma PopKeeps<T(!new)>(less: (T, T) -> bool, h: seq<T>)
    requires StrictWeak(less) && Heap(less, h) && h != []
    ensures Heap(less, Pop(less, h))
    ensures multiset(Pop(less, h)) == multiset(h) - multiset{h[0]}
  {
    if |h| == 1 {
      assert h == [h[0]];
    } else {
      FilledFromEnd(h, 0);
      SiftDownHeap(less, h[..|h| - 1][0 := h[|h| - 1]], 0);
      SiftDownElements(less, h[..|h| - 1][0 := h[|h| - 1]], 0);
    }
  }

  /** The front is not greater than any element. */
  lemma {:induction false} FrontIsLeast<T(!new)>(less: (T, T) -> bool, h: seq<T>, i: nat)
    requires StrictWeak(less) && Heap(less, h) && i < |h|
    ensures !less(h[i], h[0])
    decreases i
  {
    if i > 0 {
      FrontIsLeast(less, h, Parent(i));
      NotLess(less, h[i], h[Parent(i)], h[0]);
    }
  }

  lemma {:induction false} SiftUpKeepsBehind<T>(less: (T, T) -> bool, h: seq<T>, i: nat, j: nat)
    requires i < j < |h|
    ensures SiftUp(less, h, i)[j] == h[j]
    decreases i
  {
    if i > 0 && less(h[i], h[Parent(i)]) {
      SiftUpKeepsBehind(less, Swap(h, i, Parent(i)), Parent(i), j);
    }
  }

  /** Sifting up from slot i looks at nothing behind it. */
  lemma {:induction false} SiftUpPrefix<T>(less: (T, T) -> bool, h: seq<T>, i: nat, n: nat)
    requires i < n <= |h|
    ensures SiftUp(less, h, i)[..n] == SiftUp(less, h[..n], i)
    decreases i
  {
    if i > 0 && less(h[i], h[Parent(i)]) {
      SiftUpPrefix(less, Swap(h, i, Parent(i)), Parent(i), n);
      assert Swap(h, i, Parent(i))[..n] == Swap(h[..n], i, Parent(i));
    }
  }

  lemma LightLastElements<T>(less: (T, T) -> bool, h: seq<T>, k: nat)
    requires k < |h| && LightLast(less, h, k)
    ensures multiset(SiftUp(less, h, k)[..k]) == multiset(h) - multiset{h[Parent(k)]}
  {
    var g := SiftUp(less, h, k);
    SiftUpElements(less, h, k);
    SiftUpKeepsBehind(less, Swap(h, k, Parent(k)), Parent(k), k);
    assert g == g[..k] + [g[k]];
  }

  /** Removal takes the element it is said to take, which in a heap is the one found. */
  lemma RemoveKeepsElements<T>(less: (T, T) -> bool, h: seq<T>, k: nat, below: T)
    requires k < |h|
    ensures multiset(RemoveAt(less, h, k, below)) == multiset(h) - multiset{Taken(less, h, k)}
    ensures Heap(less, h) ==> Taken(less, h, k) == h[k]
  {
    if LightLast(less, h, k) {
      LightLastElements(less, h, k);
    } else if k == |h| - 1 {
      assert h == h[..k] + [h[k]];
    } else {
      var g := h[..|h| - 1][k := h[|h| - 1]];
      FilledFromEnd(h, k);
      SiftUpElements(less, g, k);
      SiftDownElements(less, g, k);
    }
  }

  /** When the underflowed comparison makes the root look light, it is not repaired: that is
      harmless only if the last element happened to fit there. */
  ghost predicate RootRepaired<T>(less: (T, T) -> bool, h: seq<T>, k: nat, below: T)
    requires k < |h|
  {
    var last := h[|h| - 1];
    k == 0 && less(last, below) ==>
      forall j {:trigger Parent(j)} :: 0 < j < |h| - 1 && Parent(j) == 0 ==> !less(h[j], last)
  }

  /** Removal keeps heap order exactly when the root is repaired; an inner slot always is, upwards
      or downwards as needed. */
  lemma RemoveKeepsHeap<T(!new)>(less: (T, T) -> bool, h: seq<T>, k: nat, below: T)
    requires StrictWeak(less) && Heap(less, h) && k < |h|
    ensures Heap(less, RemoveAt(less, h, k, below)) <==> RootRepaired(less, h, k, below)
  {
    if k < |h| - 1 {
      var g := h[..|h| - 1][k := h[|h| - 1]];
      HoleFilled(less, h, k);
      if k > 0 && less(g[k], g[Parent(k)]) {
        forall j | 0 < j < |g| && Parent(j) == k
          ensures !less(g[j], g[k])
        {
          NotLess(less, g[j], g[Parent(k)], g[k]);
        }
        SiftUpHeap(less, g, k);
      } else if k == 0 && less(g[0], below) {
        assert RemoveAt(less, h, k, below) == g;
        assert forall j :: 0 < j < |g| ==> g[j] == h[j];
      } else {
        SiftDownHeap(less, g, k);
      }
    }
  }

  lemma HoleFilled<T(!new)>(less: (T, T) -> bool, h: seq<T>, k: nat)
    requires StrictWeak(less) && Heap(less, h) && k < |h| - 1
    ensures var g := h[..|h| - 1][k := h[|h| - 1]];
            && (forall j {:trigger Parent(j)} :: 0 < j < |g| && Parent(j) != k && j != k ==> !less(g[j], g[Parent(j)]))
            && (forall j {:trigger Parent(j)} :: 0 < j < |g| && Parent(j) == k && k > 0 ==> !less(g[j], g[Parent(k)]))
  {
    forall j | 0 < j < |h| - 1 && Parent(j) == k && k > 0
      ensures !less(h[j], h[Parent(k)])
    {
      NotLess(less, h[j], h[k], h[Parent(k)]);
    }
  }

  // ---------- whole runs ----------

  datatype Op<T> = Pushed(x: T) | Popped | Removed(k: nat, below: T)

  /** The heap, and what went in and out. */
  datatype History<T> = History(heap: seq<T>, pushed: multiset<T>, popped: seq<T>, removed: multiset<T>)

  /** What a caller may do: pop only a non-empty queue, remove only what is there. */
  ghost predicate Allowed<T>(less: (T, T) -> bool, h: seq<T>, op: Op<T>) {
    match op
    case Pushed(_) => true
    case Popped => h != []
    case Removed(k, _) => k < |h|
  }

  /** The word below the array does not make a root that is too heavy look light. */
  ghost predicate RemovalRepaired<T>(less: (T, T) -> bool, h: seq<T>, op: Op<T>)
    requires Allowed(less, h, op)
  {
    op.Removed? ==> RootRepaired(less, h, op.k, op.below)
  }

  ghost function Step<T>(less: (T, T) -> bool, s: History<T>, op: Op<T>): History<T>
    requires Allowed(less, s.heap, op)
  {
    match op
    case Pushed(x) => s.(heap := Push(less, s.heap, x), pushed := s.pushed + multiset{x})
    case Popped => s.(heap := Pop(less, s.heap), popped := s.popped + [s.heap[0]])
    case Removed(k, below) =>
      s.(heap := RemoveAt(less, s.heap, k, below), removed := s.removed + multiset{s.heap[k]})
  }

  ghost predicate AllAllowed<T>(less: (T, T) -> bool, s: History<T>, ops: seq<Op<T>>)
    decreases |ops|
  {
    ops == [] || (Allowed(less, s.heap, ops[0]) && AllAllowed(less, Step(less, s, ops[0]), ops[1..]))
  }

  ghost function RunOps<T>(less: (T, T) -> bool, s: History<T>, ops: seq<Op<T>>): History<T>
    requires AllAllowed(less, s, ops)
    decreases |ops|
  {
    if ops == [] then s else RunOps(less, Step(less, s, ops[0]), ops[1..])
  }

  ghost predicate Balanced<T>(less: (T, T) -> bool, s: History<T>) {
    Heap(less, s.heap) && s.pushed == multiset(s.heap) + multiset(s.popped) + s.removed
  }

  ghost predicate RemovalsRepaired<T>(less: (T, T) -> bool, s: History<T>, ops: seq<Op<T>>)
    requires AllAllowed(less, s, ops)
    decreases |ops|
  {
    ops == [] || (RemovalRepaired(less, s.heap, ops[0]) && RemovalsRepaired(less, Step(less, s, ops[0]), ops[1..]))
  }

  /** At the start and after every operation. */
  ghost predicate AlwaysBalanced<T>(less: (T, T) -> bool, s: History<T>, ops: seq<Op<T>>)
    requires AllAllowed(less, s, ops)
    decreases |ops|
  {
    Balanced(less, s) && (ops == [] || AlwaysBalanced(less, Step(less, s, ops[0]), ops[1..]))
  }

  /** Over every run: heap order, and nothing lost or invented, throughout, exactly when no removal
      leaves the root unrepaired. */
  lemma {:induction false} RunKeeps<T(!new)>(less: (T, T) -> bool, s: History<T>, ops: seq<Op<T>>)
    requires StrictWeak(less) && Balanced(less, s) && AllAllowed(less, s, ops)
    ensures AlwaysBalanced(less, s, ops) <==> RemovalsRepaired(less, s, ops)
    decreases |ops|
  {
    if ops != [] {
      var t := Step(less, s, ops[0]);
      StepKeeps(less, s, ops[0]);
      if Balanced(less, t) {
        RunKeeps(less, t, ops[1..]);
      } else {
        assert !AlwaysBalanced(less, t, ops[1..]);
      }
    }
  }

  lemma StepKeeps<T(!new)>(less: (T, T) -> bool, s: History<T>, op: Op<T>)
    requires StrictWeak(less) && Balanced(less, s) && Allowed(less, s.heap, op)
    ensures Balanced(less, Step(less, s, op)) <==> RemovalRepaired(less, s.heap, op)
  {
    match op
    case Pushed(x) => PushKeeps(less, s.heap, x);
    case Popped => PopBalances(less, s);
    case Removed(k, below) =>
      RemoveKeepsElements(less, s.heap, k, below);
      RemoveKeepsHeap(less, s.heap, k, below);
      assert s.heap[k] in multiset(s.heap);
  }

  lemma PopBalances<T(!new)>(less: (T, T) -> bool, s: History<T>)
    requires StrictWeak(less) && Balanced(less, s) && s.heap != []
    ensures Balanced(less, Step(less, s, Popped))
  {
    PopKeeps(less, s.heap);
    assert s.heap[0] in multiset(s.heap);
    assert multiset(s.popped + [s.heap[0]]) == multiset(s.popped) + multiset{s.heap[0]};
  }

  /** Popping until the queue is empty. */
  ghost function Drain<T>(less: (T, T) -> bool, h: seq<T>): seq<T>
    decreases |h|
  {
    if h == [] then [] else [h[0]] + Drain(less, Pop(less, h))
  }

  ghost predicate Sorted<T>(less: (T, T) -> bool, s: seq<T>) {
    forall i, j :: 0 <= i < j < |s| ==> !less(s[j], s[i])
  }

  lemma {:induction false} DrainSorts<T(!new)>(less: (T, T) -> bool, h: seq<T>)
    requires StrictWeak(less) && Heap(less, h)
    ensures Sorted(less, Drain(less, h)) && multiset(Drain(less, h)) == multiset(h)
    decreases |h|
  {
    if h != [] {
      PopKeeps(less, h);
      var rest := Drain(less, Pop(less, h));
      DrainSorts(less, Pop(less, h));
      forall x | x in multiset(rest)
        ensures !less(x, h[0])
      {
        LeastOfRest(less, h, x);
      }
      SortedCons(less, h[0], rest);
      assert h[0] in multiset(h);
    }
  }

  lemma SortedCons<T>(less: (T, T) -> bool, x: T, rest: seq<T>)
    requires Sorted(less, rest) && forall y :: y in multiset(rest) ==> !less(y, x)
    ensures Sorted(less, [x] + rest) && multiset([x] + rest) == multiset{x} + multiset(rest)
  {
    assert forall j :: 0 <= j < |rest| ==> rest[j] in multiset(rest);
  }

  lemma LeastOfRest<T(!new)>(less: (T, T) -> bool, h: seq<T>, x: T)
    requires StrictWeak(less) && Heap(less, h) && h != [] && x in multiset(Pop(less, h))
    ensures !less(x, h[0])
  {
    PopKeeps(less, h);
    assert x in multiset(h) && x in h;
    var i :| 0 <= i < |h| && h[i] == x;
    FrontIsLeast(less, h, i);
  }

  /** Popping the rest would yield, in order, exactly what was pushed and neither popped nor removed. */
  ghost predicate Delivers<T>(less: (T, T) -> bool, s: History<T>) {
    && Sorted(less, Drain(less, s.heap))
    && s.pushed == multiset(Drain(less, s.heap)) + multiset(s.popped) + s.removed
  }

  ghost predicate AlwaysDelivers<T>(less: (T, T) -> bool, s: History<T>, ops: seq<Op<T>>)
    requires AllAllowed(less, s, ops)
    decreases |ops|
  {
    Delivers(less, s) && (ops == [] || AlwaysDelivers(less, Step(less, s, ops[0]), ops[1..]))
  }

  lemma PopElements<T>(less: (T, T) -> bool, h: seq<T>)
    requires h != []
    ensures multiset(Pop(less, h)) + multiset{h[0]} == multiset(h)
  {
    if |h| == 1 {
      assert h == [h[0]];
    } else {
      FilledFromEnd(h, 0);
      SiftDownElements(less, h[..|h| - 1][0 := h[|h| - 1]], 0);
      assert h[0] in multiset(h);
    }
  }

  /** In whatever order, popping yields every element once. */
  lemma {:induction false} DrainElements<T>(less: (T, T) -> bool, h: seq<T>)
    ensures multiset(Drain(less, h)) == multiset(h)
    decreases |h|
  {
    if h != [] {
      PopElements(less, h);
      DrainElements(less, Pop(less, h));
    }
  }

  /** If the front is greater than another element, popping does not yield them in order. */
  lemma GreaterFront<T>(less: (T, T) -> bool, h: seq<T>, j: nat)
    requires j < |h| && less(h[j], h[0]) && !less(h[0], h[0])
    ensures !Sorted(less, Drain(less, h))
  {
    var all := Drain(less, h);
    DrainElements(less, h);
    assert h[j] in multiset(h) && h[j] in multiset(all);
    var i :| 0 <= i < |all| && all[i] == h[j];
    assert all[0] == h[0] && i > 0;
  }

  lemma BalancedDelivers<T(!new)>(less: (T, T) -> bool, s: History<T>)
    requires StrictWeak(less) && Balanced(less, s)
    ensures Delivers(less, s)
  {
    DrainSorts(less, s.heap);
  }

  lemma UnrepairedFailsToDeliver<T(!new)>(less: (T, T) -> bool, s: History<T>, op: Op<T>)
    requires StrictWeak(less) && Allowed(less, s.heap, op) && !RemovalRepaired(less, s.heap, op)
    ensures !Delivers(less, Step(less, s, op))
  {
    var h, last := s.heap, s.heap[|s.heap| - 1];
    var g := h[..|h| - 1][0 := last];
    var j :| 0 < j < |h| - 1 && Parent(j) == 0 && less(h[j], last);
    assert RemoveAt(less, h, op.k, op.below) == g && g[j] == h[j];
    GreaterFront(less, g, j);
  }

  /** Over every run: at every moment popping the rest would yield, in order, exactly what was pushed
      and neither popped nor removed before, if and only if no removal leaves the root unrepaired. */
  lemma {:induction false} PopsAreSorted<T(!new)>(less: (T, T) -> bool, s: History<T>, ops: seq<Op<T>>)
    requires StrictWeak(less) && Balanced(less, s) && AllAllowed(less, s, ops)
    ensures AlwaysDelivers(less, s, ops) <==> RemovalsRepaired(less, s, ops)
    decreases |ops|
  {
    BalancedDelivers(less, s);
    if ops != [] {
      var t := Step(less, s, ops[0]);
      StepKeeps(less, s, ops[0]);
      if RemovalRepaired(less, s.heap, ops[0]) {
        PopsAreSorted(less, t, ops[1..]);
      } else {
        UnrepairedFailsToDeliver(less, s, ops[0]);
        assert !AlwaysDelivers(less, t, ops[1..]);
      }
    }
  }

  /** The integers in their order, with a queue whose root is replaced wrongly when the word below
      the array compares greater: [0, 1, 2] without 0 becomes [2, 1]. */
  lemma RootNotRepaired()
    ensures StrictWeak((x: int, y: int) => x < y)
    ensures Heap((x: int, y: int) => x < y, [0, 1, 2])
    ensures !Heap((x: int, y: int) => x < y, RemoveAt((x: int, y: int) => x < y, [0, 1, 2], 0, 3))
  {
    var less := (x: int, y: int) => x < y;
    var g := RemoveAt(less, [0, 1, 2], 0, 3);
    assert [0, 1, 2][..2][0 := 2] == [2, 1];
    assert g == [2, 1];
    assert less(g[1], g[Parent(1)]);
  }

  /** What that leads to: in [2, 1], the removal of the 1 takes the 2. */
  lemma WrongElementTaken()
    ensures RemoveAt((x: int, y: int) => x < y, [2, 1], 1, 0) == [1]
  {
    var less := (x: int, y: int) => x < y;
    var g := Swap([2, 1], 1, 0);
    assert less([2, 1][1], [2, 1][Parent(1)]);
    assert SiftUp(less, [2, 1], 1) == SiftUp(less, g, 0) == g == [1, 2];
    assert g[..1] == [1];
  }

  // ---------- the integrity check ----------

  /** loose_verify: every child below elem must be greater than its parent. */
  predicate LooseVerify<T>(less: (T, T) -> bool, h: seq<T>, elem: nat)
    decreases |h| - elem
  {
    && (Child1(elem) < |h| ==> less(h[elem], h[Child1(elem)]) && LooseVerify(less, h, Child1(elem)))
    && (Child2(elem) < |h| ==> less(h[elem], h[Child2(elem)]) && LooseVerify(less, h, Child2(elem)))
  }

  lemma {:induction false} VerifiedDown<T>(less: (T, T) -> bool, h: seq<T>, i: nat)
    requires LooseVerify(less, h, 0) && i < |h|
    ensures LooseVerify(less, h, i)
    decreases i
  {
    if i > 0 {
      VerifiedDown(less, h, Parent(i));
      assert i == Child1(Parent(i)) || i == Child2(Parent(i));
    }
  }

  lemma {:induction false} VerifiedUp<T>(less: (T, T) -> bool, h: seq<T>, elem: nat)
    requires forall i {:trigger Parent(i)} :: 0 < i < |h| ==> less(h[Parent(i)], h[i])
    ensures LooseVerify(less, h, elem)
    decreases |h| - elem
  {
    assert Parent(Child1(elem)) == elem && Parent(Child2(elem)) == elem;
    if Child1(elem) < |h| { VerifiedUp(less, h, Child1(elem)); }
    if Child2(elem) < |h| { VerifiedUp(less, h, Child2(elem)); }
  }

  ghost predicate NoneEquivalent<T>(less: (T, T) -> bool, h: seq<T>) {
    forall i {:trigger Parent(i)} :: 0 < i < |h| ==> less(h[Parent(i)], h[i]) || less(h[i], h[Parent(i)])
  }

  /** verify, said to be always true, holds exactly for the heaps in which no element is
      equivalent to its parent. */
  lemma VerifyIsTooStrict<T(!new)>(less: (T, T) -> bool, h: seq<T>)
    requires StrictWeak(less)
    ensures LooseVerify(less, h, 0) <==>
            Heap(less, h) && NoneEquivalent(less, h)
  {
    if LooseVerify(less, h, 0) {
      forall i | 0 < i < |h|
        ensures less(h[Parent(i)], h[i])
      {
        VerifiedDown(less, h, Parent(i));
        assert i == Child1(Parent(i)) || i == Child2(Parent(i));
      }
    } else if Heap(less, h) && NoneEquivalent(less, h) {
      VerifiedUp(less, h, 0);
    }
  }

  /** A heap of two equal keys, which verify rejects. */
  lemma EqualKeysRejected()
    ensures Heap((x: int, y: int) => x < y, [7, 7]) && !LooseVerify((x: int, y: int) => x < y, [7, 7], 0)
  {
    var less := (x: int, y: int) => x < y;
    assert Child1(0) == 1 && !less([7, 7][0], [7, 7][1]);
  }

  // ---------- the class ----------

  /** The vector: size live elements, and behind them the slots that were popped, which the
      sifting still reads because nil() takes index == size for present. */
  class PriorityQueue<T(!new)> {
    const less: (T, T) -> bool
    var mem: seq<T>
    var size: nat
    var heapSize: nat

    constructor (less: (T, T) -> bool)
      requires StrictWeak(less)
      ensures Valid() && Live() == [] && this.less == less
    {
      this.less := less;
      mem, size, heapSize := [], 0, 0;
    }

    ghost predicate Valid()
      reads this
    {
      StrictWeak(less) && size <= |mem| && heapSize == size
    }

    ghost function Live(): seq<T>
      requires size <= |mem|
      reads this
    {
      mem[..size]
    }

    predicate Nil(elem: nat)
      reads this
    {
      elem > size
    }

    method Empty() returns (r: bool)
      requires Valid()
      ensures r <==> Live() == []
    {
      r := heapSize == 0;
    }

    method Front() returns (x: T)
      requires Valid() && Live() != []
      ensures x == Live()[0]
      ensures Heap(less, Live()) ==> forall i :: 0 <= i < |Live()| ==> !less(Live()[i], x)
    {
      x := mem[0];
      if Heap(less, Live()) {
        forall i | 0 <= i < |Live()|
          ensures !less(Live()[i], Live()[0])
        {
          FrontIsLeast(less, Live(), i);
        }
      }
    }

    method SwapSlots(i: nat, j: nat)
      requires i < |mem| && j < |mem|
      modifies `mem
      ensures mem == Swap(old(mem), i, j)
    {
      mem := mem[i := mem[j]][j := mem[i]];
    }

    method SiftUpFrom(elem: nat)
      requires elem < |mem|
      modifies `mem
      ensures mem == SiftUp(less, old(mem), elem)
      decreases elem
    {
      if elem == 0 {
        return;
      }
      var parent := Parent(elem);
      if less(mem[elem], mem[parent]) {
        SwapSlots(elem, parent);
        SiftUpFrom(parent);
      }
    }

    /** Only called after a pop_back, so the slot behind the live ones exists; it still holds the
        element being sifted, and an element is never less than itself. */
    method SiftDownFrom(elem: nat)
      requires StrictWeak(less) && elem <= size < |mem| && mem[size] == mem[elem]
      modifies `mem
      ensures |mem| == |old(mem)| && mem[size..] == old(mem)[size..]
      ensures Live() == if elem < size then SiftDown(less, old(Live()), elem) else old(Live())
      decreases size - elem
    {
      var ch1, ch2 := Child1(elem), Child2(elem);
      if Nil(ch1) {
        return;
      }
      var swapIdx := if Nil(ch2) || less(mem[ch1], mem[ch2]) then ch1 else ch2;
      if less(mem[swapIdx], mem[elem]) {
        SwapSlots(elem, swapIdx);
        assert mem[size] == old(mem)[size..][0];
        SiftDownFrom(swapIdx);
      }
    }

    /** heap[index] = heap.back(); heap.pop_back(): the slot behind keeps the moved element. */
    method FillFromBack(index: nat)
      requires index < size <= |mem|
      modifies `mem, `size
      ensures size == old(size) - 1 && |mem| == |old(mem)|
      ensures mem[size] == mem[index] == old(mem)[size]
      ensures forall i :: 0 <= i <= size && i != index ==> mem[i] == old(mem)[i]
      ensures Live() == if index < size then old(Live())[..size][index := old(Live())[size]] else old(Live())[..size]
    {
      mem := mem[index := mem[size - 1]];
      size := size - 1;
    }

    method PushBack(x: T)
      requires Valid()
      modifies this
      ensures Valid()
      ensures Live() == Push(less, old(Live()), x)
    {
      mem := if size < |mem| then mem[size := x] else mem + [x];
      size := size + 1;
      assert Live() == old(Live()) + [x];
      SiftUpPrefix(less, mem, size - 1, size);
      SiftUpFrom(size - 1);
      heapSize := heapSize + 1;
    }

    method PopFront()
      requires Valid() && Live() != []
      modifies this
      ensures Valid()
      ensures Live() == Pop(less, old(Live()))
    {
      FillFromBack(0);
      SiftDownFrom(0);
      heapSize := heapSize - 1;
    }

    /** Called after a pop_back, so elem may be the slot behind the live ones. */
    method ReheapFrom(elem: nat, below: T)
      requires StrictWeak(less) && elem <= size < |mem| && mem[size] == mem[elem]
      modifies `mem
      ensures |mem| == |old(mem)|
      ensures elem < size ==> Live() == Reheap(less, old(Live()), elem, below)
      ensures elem == size && !LightLast(less, old(mem)[..size + 1], elem) ==> Live() == old(Live())
      ensures elem == size && LightLast(less, old(mem)[..size + 1], elem) ==>
        Live() == SiftUp(less, old(mem)[..size + 1], elem)[..elem]
    {
      if less(mem[elem], if elem == 0 then below else mem[Parent(elem)]) {
        SiftUpPrefix(less, mem, elem, size + if elem < size then 0 else 1);
        SiftUpFrom(elem);
      } else {
        SiftDownFrom(elem);
      }
    }

    /** Removes the first element that equals the given one.  below is what the underflowed parent
        index of the root reads. */
    method Remove(equals: T -> bool, below: T) returns (found: bool)
      requires Valid()
      modifies this
      ensures Valid()
      ensures found <==> Find(old(Live()), equals) < |old(Live())|
      ensures Live() == RemoveFirst(less, old(Live()), equals, below)
    {
      var index := FindSlot(equals);
      if index == size {
        return false;
      }
      RemoveSlot(index, below);
      found := true;
    }

    method RemoveSlot(index: nat, below: T)
      requires Valid() && index < size
      modifies this
      ensures Valid()
      ensures Live() == RemoveAt(less, old(Live()), index, below)
    {
      ghost var h := Live();
      FillFromBack(index);
      heapSize := heapSize - 1;
      if index == size {
        assert mem[..size + 1] == h;
      }
      ReheapFrom(index, below);
    }

    /** std::find */
    method FindSlot(equals: T -> bool) returns (index: nat)
      requires Valid()
      ensures index == Find(Live(), equals)
    {
      index := 0;
      while index < size && !equals(mem[index])
        invariant 0 <= index <= size
        invariant forall i :: 0 <= i < index ==> !equals(mem[i])
      {
        index := index + 1;
      }
    }
  }
}
