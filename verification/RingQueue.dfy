/** The circular queue of the runtime: a full queue drops its oldest value for the next one, and an
    iterator counts up from the front index while get and == each take their own modulus. */
module RingQueue {

  /** x % m for an x that wraps at most once. */
  function Wrap(x: nat, m: nat): nat
    requires x < 2 * m
  {
    if x < m then x else x - m
  }

  lemma WrapIsMod(x: nat, m: nat)
    requires x < 2 * m
    ensures x % m == Wrap(x, m) < m
  {
    if x >= m {
      assert x % m == (x - m) % m by {
        assert x == m + (x - m);
      }
    }
  }

  /** The k values from a front index on, around the ring. */
  function View<T>(slots: seq<T>, front: nat, k: nat): (s: seq<T>)
    requires front < |slots| && k <= |slots|
    ensures |s| == k
  {
    if k == 0 then [] else View(slots, front, k - 1) + [slots[Wrap(front + (k - 1), |slots|)]]
  }

  lemma {:induction false} ViewAt<T>(slots: seq<T>, front: nat, k: nat, i: nat)
    requires front < |slots| && i < k <= |slots|
    ensures View(slots, front, k)[i] == slots[Wrap(front + i, |slots|)]
  {
    if i < k - 1 {
      ViewAt(slots, front, k - 1, i);
    }
  }

  /** A store at distance j from the front is not seen nearer to it. */
  lemma {:induction false} ViewUntouched<T>(slots: seq<T>, front: nat, k: nat, j: nat, x: T)
    requires front < |slots| && k <= j < |slots|
    ensures View(slots[Wrap(front + j, |slots|) := x], front, k) == View(slots, front, k)
  {
    if k > 0 {
      ViewUntouched(slots, front, k - 1, j, x);
    }
  }

  lemma {:induction false} ViewDrop<T>(slots: seq<T>, front: nat, k: nat, r: nat)
    requires front < |slots| && r <= k <= |slots|
    ensures View(slots, Wrap(front + r, |slots|), k - r) == View(slots, front, k)[r..]
  {
    if r < k {
      ViewDrop(slots, front, k - 1, r);
      assert Wrap(Wrap(front + r, |slots|) + (k - r - 1), |slots|) == Wrap(front + (k - 1), |slots|);
    }
  }

  /** A store behind the last value makes it one longer; in a full ring the front then moves on. */
  lemma PushView<T>(slots: seq<T>, front: nat, k: nat, x: T, after: seq<T>)
    requires front < |slots| && k < |slots| && after == slots[Wrap(front + k, |slots|) := x]
    ensures k < |slots| - 1 ==> View(after, front, k + 1) == Last(View(slots, front, k) + [x], |slots| - 1)
    ensures k == |slots| - 1 ==>
      View(after, Wrap(front + 1, |slots|), k) == Last(View(slots, front, k) + [x], |slots| - 1)
  {
    ViewUntouched(slots, front, k, k, x);
    assert View(after, front, k + 1) == View(slots, front, k) + [x];
    if k == |slots| - 1 {
      ViewDrop(after, front, k + 1, 1);
    }
  }

  /** The last c values of a history. */
  function Last<T>(history: seq<T>, c: nat): (s: seq<T>)
    ensures |s| == if |history| <= c then |history| else c
  {
    if |history| <= c then history else history[|history| - c..]
  }

  /** Dropping at every push comes to the same as dropping once. */
  lemma {:induction false} LastOfLast<T>(history: seq<T>, more: seq<T>, c: nat)
    ensures Last(Last(history, c) + more, c) == Last(history + more, c)
  {
    var kept := Last(history, c);
    if |history| > c && |more| > 0 {
      assert history + more == history[..|history| - c] + (kept + more);
    } else if more == [] {
      assert history + more == history && kept + more == kept;
    }
  }

  /** One more of a list of values. */
  lemma LastOfNext<T>(history: seq<T>, values: seq<T>, i: nat, c: nat)
    requires i < |values|
    ensures Last(Last(history + values[..i], c) + [values[i]], c) == Last(history + values[..i + 1], c)
  {
    LastOfLast(history + values[..i], [values[i]], c);
    assert history + values[..i + 1] == history + values[..i] + [values[i]];
  }

  lemma LastOfAll<T>(history: seq<T>, values: seq<T>)
    ensures history + values[..0] == history && history + values[..|values|] == history + values
  {
    assert values[..|values|] == values;
  }

  /** The test for a full queue, and where the two indices go next. */
  lemma NextIndices(front: nat, size: nat, n: nat)
    requires front < n && size < n
    ensures Wrap(front + size, n) == (front + (n - 1)) % n <==> size == n - 1
    ensures (front + 1) % n == Wrap(front + 1, n) < n
    ensures size == n - 1 ==> (Wrap(front + size, n) + 1) % n == Wrap(Wrap(front + 1, n) + size, n)
    ensures size < n - 1 ==> (Wrap(front + size, n) + 1) % n == Wrap(front + (size + 1), n)
  {
    WrapIsMod(front + (n - 1), n);
    WrapIsMod(front + 1, n);
    WrapIsMod(Wrap(front + size, n) + 1, n);
  }

  /** One push, on the values of the fields before and after. */
  lemma PushStep<T>(slots: seq<T>, front: nat, size: nat, back: nat, x: T, front': nat, size': nat, back': nat)
    requires front < |slots| && size < |slots| && back == Wrap(front + size, |slots|)
    requires var full := back == (front + (|slots| - 1)) % |slots|;
             && front' == (if full then (front + 1) % |slots| else front)
             && size' == (if full then size else size + 1)
             && back' == (back + 1) % |slots|
    ensures front' < |slots| && size' < |slots| && back' == Wrap(front' + size', |slots|)
    ensures size' < |slots| - 1 ==> front' == front
    ensures View(slots[back := x], front', size') == Last(View(slots, front, size) + [x], |slots| - 1)
  {
    NextIndices(front, size, |slots|);
    PushView(slots, front, size, x, slots[back := x]);
  }

  class RingQueue<T(0)> {
    const slots: array<T>
    var currentSize: nat
    var front: nat
    var back: nat

    ghost predicate Valid()
      reads this
    {
      && currentSize < slots.Length
      && front < slots.Length
      && back == Wrap(front + currentSize, slots.Length)
      && (currentSize < slots.Length - 1 ==> front == 0)
    }

    ghost function Contents(): (s: seq<T>)
      requires Valid()
      reads this, slots
    {
      View(slots[..], front, currentSize)
    }

    constructor (maxSize: nat)
      ensures Valid() && fresh(slots)
      ensures slots.Length == maxSize + 1 && Contents() == []
    {
      slots := new T[maxSize + 1];
      currentSize, front, back := 0, 0, 0;
    }

    function MaxSize(): nat
      requires slots.Length > 0
    {
      slots.Length - 1
    }

    /** The new value goes in at the back; the oldest one goes when the queue is full. */
    method PushBack(next: T)
      requires Valid()
      modifies this, slots
      ensures Valid()
      ensures Contents() == Last(old(Contents()) + [next], MaxSize())
    {
      ghost var before, start, k, end := slots[..], front, currentSize, back;
      slots[back] := next;
      ghost var after := slots[..];
      assert after == before[end := next];
      if back == (front + (slots.Length - 1)) % slots.Length {
        front := (front + 1) % slots.Length;
        back := (back + 1) % slots.Length;
      } else {
        back := (back + 1) % slots.Length;
        currentSize := currentSize + 1;
      }
      assert slots[..] == after;
      PushStep(before, start, k, end, next, front, currentSize, back);
    }

    /** The modulus is the array's length only when the queue is full; else it is the size. */
    method Get(index: nat) returns (x: T)
      requires Valid() && 0 < currentSize
      ensures currentSize == MaxSize() ==> x == slots[index % slots.Length]
      ensures currentSize < MaxSize() ==> x == slots[index % currentSize]
    {
      if currentSize == slots.Length - 1 {
        return slots[index % slots.Length];
      }
      return slots[index % currentSize];
    }

    method Begin() returns (it: Cursor<T>)
      ensures fresh(it) && it.queue == this && it.index == front
    {
      it := new Cursor(this, front);
    }

    method End() returns (it: Cursor<T>)
      ensures fresh(it) && it.queue == this && it.index == back
    {
      it := new Cursor(this, back);
    }
  }

  class Cursor<T(0)> {
    const queue: RingQueue<T>
    var index: nat

    constructor (queue: RingQueue<T>, index: nat)
      ensures this.queue == queue && this.index == index
    {
      this.queue, this.index := queue, index;
    }

    predicate Equals(other: Cursor<T>)
      requires queue.slots.Length > 0
      reads this, other
    {
      other.index % (queue.MaxSize() + 1) == index % (queue.MaxSize() + 1) && other.queue == queue
    }

    /** Within the contents both moduli of get name the same slot. */
    method Dereference(ghost k: nat) returns (x: T)
      requires queue.Valid() && index == queue.front + k && k < queue.currentSize
      ensures x == queue.Contents()[k]
    {
      WrapIsMod(index, queue.slots.Length);
      if queue.currentSize < queue.MaxSize() {
        WrapIsMod(index, queue.currentSize);
      }
      ViewAt(queue.slots[..], queue.front, queue.currentSize, k);
      x := queue.Get(index);
    }

    method Advance()
      modifies this
      ensures index == old(index) + 1
    {
      index := index + 1;
    }
  }

  /** k steps from the front the index is equal to the end's exactly when all values are behind it. */
  lemma EndIsReached(front: nat, k: nat, size: nat, n: nat)
    requires front < n && k <= size < n
    ensures (front + k) % n == Wrap(front + size, n) % n <==> k == size
  {
    WrapIsMod(front + k, n);
    WrapIsMod(front + size, n);
    WrapIsMod(Wrap(front + size, n), n);
  }

  /** The usual loop from begin to end: it stops, and has seen the contents in order. */
  method Walk<T(0)>(queue: RingQueue<T>) returns (seen: seq<T>)
    requires queue.Valid()
    ensures seen == queue.Contents()
  {
    var n := queue.slots.Length;
    var it := queue.Begin();
    var end := queue.End();
    seen := [];
    EndIsReached(queue.front, 0, queue.currentSize, n);
    while !it.Equals(end)
      invariant fresh(it) && it.queue == queue && end.queue == queue && end.index == queue.back && it != end
      invariant it.index == queue.front + |seen| && |seen| <= queue.currentSize
      invariant seen == queue.Contents()[..|seen|]
      invariant it.Equals(end) <==> |seen| == queue.currentSize
      decreases queue.currentSize - |seen|
    {
      var x := it.Dereference(|seen|);
      EndIsReached(queue.front, |seen| + 1, queue.currentSize, n);
      seen := seen + [x];
      it.Advance();
    }
  }

  method PushAll<T(0)>(queue: RingQueue<T>, values: seq<T>)
    requires queue.Valid()
    modifies queue, queue.slots
    ensures queue.Valid()
    ensures queue.Contents() == Last(old(queue.Contents()) + values, queue.MaxSize())
  {
    ghost var before := queue.Contents();
    ghost var c := queue.MaxSize();
    LastOfAll(before, values);
    for i := 0 to |values|
      invariant queue.Valid()
      invariant queue.Contents() == Last(before + values[..i], c)
    {
      queue.PushBack(values[i]);
      LastOfNext(before, values, i, c);
    }
  }

  /** A fresh queue of any capacity, any number of pushes, then a walk: the last pushed values, in
      the order of the pushes. */
  method PushThenWalk<T(0)>(capacity: nat, values: seq<T>) returns (seen: seq<T>)
    ensures seen == Last(values, capacity)
  {
    var queue := new RingQueue<T>(capacity);
    assert [] + values == values;
    PushAll(queue, values);
    seen := Walk(queue);
  }
}
