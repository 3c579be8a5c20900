/** The ring buffer of the runtime's io library: writes push out the oldest bytes, peeks copy from
    the front, reads also remove. One slot always stays unused, so n slots hold n - 1 bytes. */
module RingBuffer {
  import opened Common
  import opened RingQueue

  function Min(x: nat, y: nat): nat { if x <= y then x else y }

  /** How far the end index is ahead of the start index, around the ring. */
  function Ahead(start: nat, end: nat, n: nat): (k: nat)
    requires start < n && end < n
    ensures k < n && end == Wrap(start + k, n)
  {
    if start <= end then end - start else end + n - start
  }

  lemma StepAhead(start: nat, end: nat, n: nat)
    requires start < n && end < n && n >= 2
    ensures var k, next := Ahead(start, end, n), (end + 1) % n;
            && next < n
            && (next == start <==> k == n - 1)
            && (k < n - 1 ==> Ahead(start, next, n) == k + 1)
            && (start + 1) % n == Wrap(start + 1, n) < n
            && (k == n - 1 ==> Ahead(Wrap(start + 1, n), next, n) == k)
  {
    WrapIsMod(end + 1, n);
    WrapIsMod(start + 1, n);
  }

  /** One byte written, on the values of the fields before and after. */
  lemma WriteStep(slots: seq<byte>, start: nat, end: nat, b: byte, start': nat, end': nat)
    requires |slots| >= 2 && start < |slots| && end < |slots|
    requires end' == (end + 1) % |slots|
    requires start' == if end' == start then (start + 1) % |slots| else start
    ensures start' < |slots| && end' < |slots|
    ensures View(slots[end := b], start', Ahead(start', end', |slots|))
         == Last(View(slots, start, Ahead(start, end, |slots|)) + [b], |slots| - 1)
  {
    StepAhead(start, end, |slots|);
    PushView(slots, start, Ahead(start, end, |slots|), b, slots[end := b]);
  }

  class RingBuffer {
    const buffer: array<byte>
    var startptr: nat
    var endptr: nat

    ghost predicate Valid()
      reads this
    {
      2 <= buffer.Length && startptr < buffer.Length && endptr < buffer.Length
    }

    ghost function Contents(): (s: seq<byte>)
      requires Valid()
      reads this, buffer
    {
      View(buffer[..], startptr, Ahead(startptr, endptr, buffer.Length))
    }

    /** A new buffer already holds one byte, of no particular value.  With fewer than two slots the
        end index is outside the array and the buffer cannot be used. */
    constructor (size: nat)
      ensures fresh(buffer) && buffer.Length == size && startptr == 0 && endptr == 1
      ensures Valid() <==> size >= 2
      ensures Valid() ==> |Contents()| == 1
    {
      buffer := new byte[size];
      startptr := 0;
      endptr := 1;
    }

    method WriteByte(b: byte)
      requires Valid()
      modifies this, buffer
      ensures Valid()
      ensures Contents() == Last(old(Contents()) + [b], buffer.Length - 1)
    {
      ghost var before, start, end := buffer[..], startptr, endptr;
      buffer[endptr] := b;
      endptr := (endptr + 1) % buffer.Length;
      if endptr == startptr {
        startptr := (startptr + 1) % buffer.Length;
      }
      WriteStep(before, start, end, b, startptr, endptr);
      assert buffer[..] == before[end := b];
    }

    /** Of the old bytes and the new ones behind them, the last that fit remain. */
    method Write(input: seq<byte>) returns (written: nat)
      requires Valid()
      modifies this, buffer
      ensures Valid()
      ensures Contents() == Last(old(Contents()) + input, buffer.Length - 1)
      ensures written == |input|
    {
      ghost var before := Contents();
      ghost var c := buffer.Length - 1;
      LastOfAll(before, input);
      for i := 0 to |input|
        invariant Valid()
        invariant Contents() == Last(before + input[..i], c)
      {
        WriteByte(input[i]);
        LastOfNext(before, input, i, c);
      }
      written := |input|;
    }

    method Peek(into: array<byte>, size: nat) returns (bytesRead: nat)
      requires Valid() && into != buffer && size <= into.Length
      modifies into
      ensures bytesRead == Min(size, |Contents()|)
      ensures into[..bytesRead] == Contents()[..bytesRead]
      ensures into[bytesRead..] == old(into[bytesRead..])
    {
      ghost var all := Contents();
      bytesRead := 0;
      var cur := startptr;
      var left := size;
      while cur != endptr && left > 0
        invariant bytesRead <= |all| && left == size - bytesRead
        invariant cur == Wrap(startptr + bytesRead, buffer.Length)
        invariant into[..bytesRead] == all[..bytesRead]
        invariant into[bytesRead..] == old(into[..])[bytesRead..]
        decreases left
      {
        WrapIsMod(cur + 1, buffer.Length);
        ViewAt(buffer[..], startptr, |all|, bytesRead);
        into[bytesRead] := buffer[cur];
        bytesRead := bytesRead + 1;
        cur := (cur + 1) % buffer.Length;
        left := left - 1;
      }
    }

    /** What was read is gone from the front, and nothing else is. */
    method Read(into: array<byte>, size: nat) returns (bytesRead: nat)
      requires Valid() && into != buffer && size <= into.Length
      modifies this, into
      ensures Valid()
      ensures bytesRead == Min(size, |old(Contents())|)
      ensures into[..bytesRead] == old(Contents())[..bytesRead]
      ensures into[bytesRead..] == old(into[bytesRead..])
      ensures Contents() == old(Contents())[bytesRead..]
    {
      bytesRead := Peek(into, size);
      WrapIsMod(startptr + bytesRead, buffer.Length);
      ViewDrop(buffer[..], startptr, Ahead(startptr, endptr, buffer.Length), bytesRead);
      startptr := (startptr + bytesRead) % buffer.Length;
    }
  }

  // ---------- any interleaving ----------

  datatype Call = Write(bytes: seq<byte>) | Peek(most: nat) | Read(most: nat)

  /** A byte sequence of at most c bytes, and all bytes read out of it so far. */
  datatype Bounded = Bounded(held: seq<byte>, out: seq<byte>)

  function Step(b: Bounded, call: Call, c: nat): Bounded {
    match call
    case Write(bytes) => b.(held := Last(b.held + bytes, c))
    case Peek(_) => b
    case Read(most) =>
      var r := Min(most, |b.held|);
      Bounded(b.held[r..], b.out + b.held[..r])
  }

  function After(b: Bounded, calls: seq<Call>, c: nat): Bounded {
    if calls == [] then b else Step(After(b, calls[..|calls| - 1], c), calls[|calls| - 1], c)
  }

  function Written(calls: seq<Call>): seq<byte> {
    if calls == [] then []
    else
      var before := Written(calls[..|calls| - 1]);
      if calls[|calls| - 1].Write? then before + calls[|calls| - 1].bytes else before
  }

  /** No write of the run finds too little room. */
  predicate Fits(b: Bounded, calls: seq<Call>, c: nat) {
    calls == [] ||
    (var init, last := calls[..|calls| - 1], calls[|calls| - 1];
     Fits(b, init, c) && (last.Write? ==> |After(b, init, c).held| + |last.bytes| <= c))
  }

  /** First in, first out: as long as nothing is pushed out, the bytes read and the bytes still held
      are the bytes held at first and the bytes written, in order. */
  lemma {:induction false} FirstInFirstOut(b: Bounded, calls: seq<Call>, c: nat)
    requires Fits(b, calls, c)
    ensures After(b, calls, c).out + After(b, calls, c).held == b.out + b.held + Written(calls)
  {
    if calls == [] {
      assert b.out + b.held + [] == b.out + b.held;
    } else {
      var init, last := calls[..|calls| - 1], calls[|calls| - 1];
      var mid := After(b, init, c);
      FirstInFirstOut(b, init, c);
      match last
      case Write(bytes) =>
        Assoc(mid.out, mid.held, bytes);
        Assoc(b.out + b.held, Written(init), bytes);
      case Peek(_) =>
      case Read(most) =>
        var r := Min(most, |mid.held|);
        Assoc(mid.out, mid.held[..r], mid.held[r..]);
        assert mid.held[..r] + mid.held[r..] == mid.held;
    }
  }

  /** The buffer does on every run of calls what the bounded sequence does. */
  method Run(ring: RingBuffer, calls: seq<Call>) returns (out: seq<byte>)
    requires ring.Valid()
    modifies ring, ring.buffer
    ensures ring.Valid()
    ensures Bounded(ring.Contents(), out)
         == After(Bounded(old(ring.Contents()), []), calls, ring.buffer.Length - 1)
  {
    ghost var start, c := Bounded(ring.Contents(), []), ring.buffer.Length - 1;
    out := [];
    for i := 0 to |calls|
      invariant ring.Valid()
      invariant Bounded(ring.Contents(), out) == After(start, calls[..i], c)
    {
      assert calls[..i + 1][..i] == calls[..i];
      match calls[i]
      case Write(bytes) =>
        var _ := ring.Write(bytes);
      case Peek(most) =>
        var into := new byte[most];
        var _ := ring.Peek(into, most);
      case Read(most) =>
        var into := new byte[most];
        var n := ring.Read(into, most);
        out := out + into[..n];
    }
    assert calls[..|calls|] == calls;
  }
}
