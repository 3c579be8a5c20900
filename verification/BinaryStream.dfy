/** Binary streams: integers of three widths in both byte orders and strings, written through a
    buffered putter and read through a getter that refills itself from chunks of any sizes. */
module BinaryStream {
  import opened Common

  type Bytes = seq<byte>

  const NUL: byte := 0

  // ---------- numbers as bytes ----------

  lemma Powers()
    ensures Pow256(1) == 0x100 && Pow256(2) == 0x1_0000
    ensures Pow256(4) == 0x1_0000_0000 && Pow256(8) == 0x1_0000_0000_0000_0000
  {
    assert Pow256(3) == 0x100_0000;
    assert Pow256(5) == 0x100_0000_0000;
    assert Pow256(7) == 0x100_0000_0000_0000;
  }

  /** The n lowest bytes of v, lowest first. */
  function Le(v: nat, n: nat): (bs: Bytes)
    ensures |bs| == n
  {
    if n == 0 then [] else [(v % 256) as byte] + Le(v / 256, n - 1)
  }

  /** The same bytes, highest first. */
  function Be(v: nat, n: nat): (bs: Bytes)
    ensures |bs| == n
  {
    if n == 0 then [] else Be(v / 256, n - 1) + [(v % 256) as byte]
  }

  function FromLe(bs: Bytes): nat {
    if bs == [] then 0 else bs[0] as int + 256 * FromLe(bs[1..])
  }

  function FromBe(bs: Bytes): nat {
    if bs == [] then 0 else 256 * FromBe(bs[..|bs| - 1]) + bs[|bs| - 1] as int
  }

  lemma {:induction false} LeReads(v: nat, n: nat)
    requires v < Pow256(n)
    ensures FromLe(Le(v, n)) == v
    decreases n
  {
    if n > 0 {
      LeReads(v / 256, n - 1);
    }
  }

  lemma {:induction false} BeReads(v: nat, n: nat)
    requires v < Pow256(n)
    ensures FromBe(Be(v, n)) == v
    decreases n
  {
    if n > 0 {
      BeReads(v / 256, n - 1);
    }
  }

  lemma JoinDigit(low: nat, high: nat, p: nat)
    ensures (low + 256 * p * high) % 256 == low % 256
    ensures (low + 256 * p * high) / 256 == low / 256 + p * high
  {
    assert 256 * p * high == 256 * (p * high);
  }

  /** Two halves written one behind the other are the whole: the low one first, */
  lemma {:induction false} LeJoin(low: nat, high: nat, n: nat, m: nat)
    requires low < Pow256(n)
    ensures Le(low + Pow256(n) * high, n + m) == Le(low, n) + Le(high, m)
    decreases n
  {
    if n > 0 {
      LeJoin(low / 256, high, n - 1, m);
      JoinDigit(low, high, Pow256(n - 1));
    }
  }

  /** or the high one first. */
  lemma {:induction false} BeJoin(low: nat, high: nat, n: nat, m: nat)
    requires low < Pow256(n)
    ensures Be(low + Pow256(n) * high, n + m) == Be(high, m) + Be(low, n)
    decreases n
  {
    if n > 0 {
      BeJoin(low / 256, high, n - 1, m);
      JoinDigit(low, high, Pow256(n - 1));
    }
  }

  lemma Halves(u: nat, low: nat, high: nat, n: nat)
    requires low < Pow256(n) && u == low + Pow256(n) * high
    ensures Le(u, n + n) == Le(low, n) + Le(high, n)
    ensures Be(u, n + n) == Be(high, n) + Be(low, n)
  {
    LeJoin(low, high, n, n);
    BeJoin(low, high, n, n);
  }

  /** The halves the code takes. */
  lemma Halves32(u: nat, low: nat, high: nat)
    requires low == u % 0x1_0000 && high == u / 0x1_0000
    ensures Le(u, 4) == Le(low, 2) + Le(high, 2)
    ensures Be(u, 4) == Be(high, 2) + Be(low, 2)
  {
    Powers();
    Halves(u, low, high, 2);
  }

  lemma Halves64(u: nat, low: nat, high: nat)
    requires low == u % 0x1_0000_0000 && high == u / 0x1_0000_0000
    ensures Le(u, 8) == Le(low, 4) + Le(high, 4)
    ensures Be(u, 8) == Be(high, 4) + Be(low, 4)
  {
    Powers();
    Halves(u, low, high, 4);
  }

  lemma Carry(p: nat, x: nat, y: nat, digit: nat)
    ensures 256 * (p * x + y) + digit == 256 * p * x + (256 * y + digit)
    ensures digit + 256 * (y + p * x) == (digit + 256 * y) + 256 * p * x
  {
    assert 256 * (p * x) == 256 * p * x;
  }

  lemma {:induction false} FromLeJoin(a: Bytes, b: Bytes)
    ensures FromLe(a + b) == FromLe(a) + Pow256(|a|) * FromLe(b)
  {
    if a == [] {
      assert a + b == b;
    } else {
      var tail := a[1..];
      FromLeJoin(tail, b);
      assert (a + b)[1..] == tail + b;
      Carry(Pow256(|tail|), FromLe(b), FromLe(tail), a[0] as int);
    }
  }

  lemma {:induction false} FromBeJoin(a: Bytes, b: Bytes)
    ensures FromBe(a + b) == Pow256(|b|) * FromBe(a) + FromBe(b)
  {
    if b == [] {
      assert a + b == a;
    } else {
      var init := b[..|b| - 1];
      FromBeJoin(a, init);
      assert (a + b)[..|a + b| - 1] == a + init;
      Carry(Pow256(|init|), FromBe(a), FromBe(init), b[|b| - 1] as int);
    }
  }

  // ---------- the putter ----------

  /** A stream that takes everything it is given. */
  class Sink {
    var written: Bytes

    constructor ()
      ensures written == []
    {
      written := [];
    }

    method Write(data: Bytes)
      modifies this
      ensures written == old(written) + data
    {
      written := written + data;
    }
  }

  class StreamPutter {
    const buffer: array<byte>
    const base: Sink
    var ptr: nat

    ghost predicate Valid()
      reads this
    {
      ptr < buffer.Length
    }

    /** What has been put so far: the part already passed on, and the part still held back. */
    ghost function Stream(): Bytes
      requires Valid()
      reads this, buffer, base
    {
      base.written + buffer[..ptr]
    }

    constructor (base: Sink, buflen: nat)
      requires buflen >= 1
      ensures Valid() && fresh(buffer) && this.base == base && buffer.Length == buflen
      ensures Stream() == base.written
    {
      buffer := new byte[buflen];
      this.base := base;
      ptr := 0;
    }

    method Flush()
      requires ptr <= buffer.Length && buffer.Length >= 1
      modifies this, base
      ensures Valid() && ptr == 0
      ensures base.written == old(base.written + buffer[..ptr])
    {
      if ptr > 0 {
        base.Write(buffer[..ptr]);
      }
      ptr := 0;
    }

    method PutByte(b: byte)
      requires Valid()
      modifies this, buffer, base
      ensures Valid() && Stream() == old(Stream()) + [b]
    {
      ghost var held := buffer[..ptr];
      buffer[ptr] := b;
      ptr := ptr + 1;
      assert buffer[..ptr] == held + [b];
      if ptr == buffer.Length {
        Flush();
      }
    }

    method PutInt16le(u: nat)
      requires Valid() && u < 0x1_0000
      modifies this, buffer, base
      ensures Valid() && Stream() == old(Stream()) + Le(u, 2)
    {
      PutByte((u % 256) as byte);
      PutByte((u / 256 % 256) as byte);
    }

    method PutInt16be(u: nat)
      requires Valid() && u < 0x1_0000
      modifies this, buffer, base
      ensures Valid() && Stream() == old(Stream()) + Be(u, 2)
    {
      PutByte((u / 256 % 256) as byte);
      PutByte((u % 256) as byte);
      assert Be(u, 2) == Be(u / 256, 1) + [(u % 256) as byte];
    }

    method PutInt32le(u: nat)
      requires Valid() && u < 0x1_0000_0000
      modifies this, buffer, base
      ensures Valid() && Stream() == old(Stream()) + Le(u, 4)
    {
      var low, high := u % 0x1_0000, u / 0x1_0000;
      PutInt16le(low);
      PutInt16le(high);
      Assoc(old(Stream()), Le(low, 2), Le(high, 2));
      Halves32(u, low, high);
    }

    method PutInt32be(u: nat)
      requires Valid() && u < 0x1_0000_0000
      modifies this, buffer, base
      ensures Valid() && Stream() == old(Stream()) + Be(u, 4)
    {
      var low, high := u % 0x1_0000, u / 0x1_0000;
      PutInt16be(high);
      PutInt16be(low);
      Assoc(old(Stream()), Be(high, 2), Be(low, 2));
      Halves32(u, low, high);
    }

    method PutInt64le(u: nat)
      requires Valid() && u < 0x1_0000_0000_0000_0000
      modifies this, buffer, base
      ensures Valid() && Stream() == old(Stream()) + Le(u, 8)
    {
      var low, high := u % 0x1_0000_0000, u / 0x1_0000_0000;
      PutInt32le(low);
      PutInt32le(high);
      Assoc(old(Stream()), Le(low, 4), Le(high, 4));
      Halves64(u, low, high);
    }

    method PutInt64be(u: nat)
      requires Valid() && u < 0x1_0000_0000_0000_0000
      modifies this, buffer, base
      ensures Valid() && Stream() == old(Stream()) + Be(u, 8)
    {
      var low, high := u % 0x1_0000_0000, u / 0x1_0000_0000;
      PutInt32be(high);
      PutInt32be(low);
      Assoc(old(Stream()), Be(high, 4), Be(low, 4));
      Halves64(u, low, high);
    }

    method PutBytes(data: Bytes)
      requires Valid()
      modifies this, buffer, base
      ensures Valid() && Stream() == old(Stream()) + data
    {
      for i := 0 to |data|
        invariant Valid() && Stream() == old(Stream()) + data[..i]
      {
        PutByte(data[i]);
        assert data[..i + 1] == data[..i] + [data[i]];
      }
      assert data[..|data|] == data;
    }

    /** The size is cut to 32 bits; the characters are not. */
    method PutString(s: Bytes)
      requires Valid()
      modifies this, buffer, base
      ensures Valid() && Stream() == old(Stream()) + (Le(|s| % 0x1_0000_0000, 4) + s)
    {
      PutInt32le(|s| % 0x1_0000_0000);
      PutBytes(s);
    }
  }

  // ---------- the getter ----------

  /** A stream cut at will: chunks of the given sizes, then the rest. */
  function Cut(wire: Bytes, sizes: seq<nat>): seq<Bytes>
    decreases |sizes|
  {
    if sizes == [] || sizes[0] > |wire| then [wire]
    else [wire[..sizes[0]]] + Cut(wire[sizes[0]..], sizes[1..])
  }

  lemma {:induction false} CutConcat(wire: Bytes, sizes: seq<nat>)
    ensures Concat(Cut(wire, sizes)) == wire
    decreases |sizes|
  {
    if sizes == [] || sizes[0] > |wire| {
      assert Concat([]) == [] && wire + [] == wire;
    } else {
      var rest := wire[sizes[0]..];
      CutConcat(rest, sizes[1..]);
      assert Cut(wire, sizes)[1..] == Cut(rest, sizes[1..]);
      assert wire == wire[..sizes[0]] + rest;
    }
  }

  function Concat(chunks: seq<Bytes>): Bytes {
    if chunks == [] then [] else chunks[0] + Concat(chunks[1..])
  }

  /** A stream that hands out its chunks one a read, and fails when there are none left. */
  class Source {
    var chunks: seq<Bytes>

    constructor (chunks: seq<Bytes>)
      ensures this.chunks == chunks
    {
      this.chunks := chunks;
    }

    method Read() returns (r: Option<Bytes>)
      modifies this
      ensures old(chunks) == [] ==> r == None && chunks == []
      ensures old(chunks) != [] ==> r == Some(old(chunks)[0]) && chunks == old(chunks)[1..]
    {
      if chunks == [] {
        return None;
      }
      r := Some(chunks[0]);
      chunks := chunks[1..];
    }
  }

  class StreamGetter {
    const input: Source
    var blob: Bytes
    var cursor: nat

    ghost predicate Valid()
      reads this
    {
      cursor <= |blob|
    }

    /** Everything not yet got. */
    ghost function Remaining(): Bytes
      requires Valid()
      reads this, input
    {
      blob[cursor..] + Concat(input.chunks)
    }

    constructor (input: Source)
      ensures Valid() && this.input == input && Remaining() == Concat(input.chunks)
    {
      this.input, blob, cursor := input, [], 0;
    }

    /** Reads until a chunk is not empty; None is the underflow exception. */
    method GetByte() returns (r: Option<byte>)
      requires Valid()
      modifies this, input
      ensures Valid()
      ensures old(Remaining()) == [] ==> r == None && Remaining() == []
      ensures old(Remaining()) != [] ==> r == Some(old(Remaining())[0]) && Remaining() == old(Remaining())[1..]
    {
      if cursor >= |blob| {
        while true
          invariant Valid() && cursor == |blob|
          invariant Remaining() == old(Remaining())
          decreases |input.chunks|
        {
          var ret := input.Read();
          match ret
          case None => return None;
          case Some(chunk) =>
            cursor := 0;
            blob := chunk;
            if |blob| != 0 {
              break;
            }
        }
      }
      r := Some(blob[cursor]);
      ghost var tail := blob[cursor + 1..];
      assert blob[cursor..] == [blob[cursor]] + tail;
      cursor := cursor + 1;
    }

    /** The common contract of the getters: n bytes are taken from the front, or all of too few. */
    ghost predicate Took(before: Bytes, n: nat, ok: bool)
      requires Valid()
      reads this, input
    {
      (ok <==> n <= |before|) && Remaining() == if ok then before[n..] else []
    }

    method GetInt16le() returns (r: Option<nat>)
      requires Valid()
      modifies this, input
      ensures Valid() && Took(old(Remaining()), 2, r.Some?)
      ensures r.Some? ==> r.value == FromLe(old(Remaining())[..2]) < 0x1_0000
    {
      var low := GetByte();
      if low == None { return None; }
      var high := GetByte();
      if high == None { return None; }
      ghost var before := old(Remaining());
      TwoBytes(before[0], before[1]);
      assert before[..2] == [before[0], before[1]];
      r := Some(high.value as int * 256 + low.value as int);
    }

    method GetInt16be() returns (r: Option<nat>)
      requires Valid()
      modifies this, input
      ensures Valid() && Took(old(Remaining()), 2, r.Some?)
      ensures r.Some? ==> r.value == FromBe(old(Remaining())[..2]) < 0x1_0000
    {
      var high := GetByte();
      if high == None { return None; }
      var low := GetByte();
      if low == None { return None; }
      ghost var before := old(Remaining());
      TwoBytes(before[0], before[1]);
      assert before[..2] == [before[0], before[1]];
      r := Some(high.value as int * 256 + low.value as int);
    }

    method GetInt32le() returns (r: Option<nat>)
      requires Valid()
      modifies this, input
      ensures Valid() && Took(old(Remaining()), 4, r.Some?)
      ensures r.Some? ==> r.value == FromLe(old(Remaining())[..4]) < 0x1_0000_0000
    {
      var low := GetInt16le();
      if low == None { return None; }
      var high := GetInt16le();
      if high == None { return None; }
      TwoHalves(old(Remaining()), 2);
      r := Some(high.value * 0x1_0000 + low.value);
    }

    method GetInt32be() returns (r: Option<nat>)
      requires Valid()
      modifies this, input
      ensures Valid() && Took(old(Remaining()), 4, r.Some?)
      ensures r.Some? ==> r.value == FromBe(old(Remaining())[..4]) < 0x1_0000_0000
    {
      var high := GetInt16be();
      if high == None { return None; }
      var low := GetInt16be();
      if low == None { return None; }
      TwoHalves(old(Remaining()), 2);
      r := Some(high.value * 0x1_0000 + low.value);
    }

    method GetInt64le() returns (r: Option<nat>)
      requires Valid()
      modifies this, input
      ensures Valid() && Took(old(Remaining()), 8, r.Some?)
      ensures r.Some? ==> r.value == FromLe(old(Remaining())[..8])
    {
      var low := GetInt32le();
      if low == None { return None; }
      var high := GetInt32le();
      if high == None { return None; }
      TwoHalves(old(Remaining()), 4);
      r := Some(high.value * 0x1_0000_0000 + low.value);
    }

    /** Both halves are got in one expression, whose operands the compiler may take in either order. */
    method GetInt64be(rightFirst: bool) returns (r: Option<nat>)
      requires Valid()
      modifies this, input
      ensures Valid() && Took(old(Remaining()), 8, r.Some?)
      ensures r.Some? ==> r.value == FromBe(Ordered(old(Remaining())[..8], rightFirst))
    {
      var first := GetInt32be();
      if first == None { return None; }
      var second := GetInt32be();
      if second == None { return None; }
      TwoHalves(old(Remaining()), 4);
      if rightFirst {
        r := Some(second.value * 0x1_0000_0000 + first.value);
      } else {
        r := Some(first.value * 0x1_0000_0000 + second.value);
      }
    }

    method GetBytes(len: nat) returns (r: Option<Bytes>)
      requires Valid()
      modifies this, input
      ensures Valid() && Took(old(Remaining()), len, r.Some?)
      ensures r.Some? ==> r.value == old(Remaining())[..len]
    {
      var into: Bytes := [];
      for i := 0 to len
        invariant Valid() && i <= |old(Remaining())|
        invariant into == old(Remaining())[..i] && Remaining() == old(Remaining())[i..]
      {
        var b := GetByte();
        if b == None { return None; }
        into := into + [b.value];
      }
      r := Some(into);
    }

    /** The result is made from a C string. For the largest length, len + 1 wraps to an array of
        none; the code has no meaning from there on, and None stands for that. */
    method GetString() returns (r: Option<Bytes>)
      requires Valid()
      modifies this, input
      ensures Valid()
      ensures var before := old(Remaining());
              if |before| < 4 then r == None && Remaining() == []
              else
                var len := FromLe(before[..4]);
                if len == 0xFFFF_FFFF then r == None && Remaining() == before[4..]
                else Took(before[4..], len, r.Some?) && (r.Some? ==> r.value == CString(before[4..][..len], 0))
    {
      var len := GetInt32le();
      if len == None || len.value == 0xFFFF_FFFF { return None; }
      var data := GetBytes(len.value);
      if data == None { return None; }
      r := Some(CString(data.value, NUL));
    }
  }

  function Ordered(bs: Bytes, rightFirst: bool): Bytes
    requires |bs| == 8
  {
    if rightFirst then bs[4..] + bs[..4] else bs
  }

  lemma TwoBytes(a: byte, b: byte)
    ensures FromLe([a, b]) == a as int + 256 * b as int
    ensures FromBe([a, b]) == 256 * a as int + b as int
  {
    assert [a, b][1..] == [b] && FromLe([b]) == b as int;
    assert [a, b][..1] == [a] && FromBe([a]) == a as int;
  }

  /** What two reads of n bytes say about one of 2n. */
  lemma TwoHalves(bs: Bytes, n: nat)
    requires (n == 2 || n == 4) && 2 * n <= |bs|
    ensures var p := if n == 2 then 0x1_0000 else 0x1_0000_0000;
            var first, second := bs[..n], bs[n..][..n];
            && FromLe(bs[..2 * n]) == FromLe(first) + p * FromLe(second)
            && FromBe(bs[..2 * n]) == p * FromBe(first) + FromBe(second)
            && bs[n..][n..] == bs[2 * n..]
            && (n == 4 ==> FromBe(Ordered(bs[..8], true)) == p * FromBe(second) + FromBe(first))
  {
    var first, second := bs[..n], bs[n..][..n];
    Powers();
    assert bs[..2 * n] == first + second;
    FromLeJoin(first, second);
    FromBeJoin(first, second);
    FromBeJoin(second, first);
    if n == 4 {
      assert Ordered(bs[..8], true) == second + first;
    }
  }

  // ---------- programs of puts and gets ----------

  datatype Width = W16 | W32 | W64

  function Size(w: Width): nat {
    match w case W16 => 2 case W32 => 4 case W64 => 8
  }

  datatype Kind = Int(width: Width, big: bool) | String

  datatype Item = Number(kind: Kind, value: nat) | Text(text: Bytes)

  /** A number fits its width; the length of a text, and one more, fit in 32 bits. */
  predicate Fits(item: Item) {
    match item
    case Number(kind, value) => kind.Int? && value < Pow256(Size(kind.width))
    case Text(text) => |text| < 0xFFFF_FFFF
  }

  function KindOf(item: Item): Kind
    requires Fits(item)
  {
    if item.Text? then String else item.kind
  }

  function Encode(item: Item): Bytes
    requires Fits(item)
  {
    match item
    case Number(kind, value) => if kind.big then Be(value, Size(kind.width)) else Le(value, Size(kind.width))
    case Text(text) => Le(|text|, 4) + text
  }

  predicate AllFit(items: seq<Item>) {
    forall i :: 0 <= i < |items| ==> Fits(items[i])
  }

  function EncodeAll(items: seq<Item>): Bytes
    requires AllFit(items)
  {
    if items == [] then [] else EncodeAll(items[..|items| - 1]) + Encode(items[|items| - 1])
  }

  lemma {:induction false} EncodeFirst(items: seq<Item>)
    requires AllFit(items) && items != []
    ensures AllFit(items[1..]) && EncodeAll(items) == Encode(items[0]) + EncodeAll(items[1..])
  {
    var init, last, tail := items[..|items| - 1], items[|items| - 1], items[1..];
    if tail == [] {
      assert init == [] && EncodeAll(items) == [] + Encode(last);
    } else {
      EncodeFirst(init);
      assert tail[..|tail| - 1] == init[1..] && tail[|tail| - 1] == last;
      Assoc(Encode(items[0]), EncodeAll(init[1..]), Encode(last));
    }
  }

  lemma EncodeNext(items: seq<Item>, i: nat)
    requires AllFit(items) && i < |items|
    ensures AllFit(items[i..]) && AllFit(items[i + 1..])
    ensures EncodeAll(items[i..]) == Encode(items[i]) + EncodeAll(items[i + 1..])
  {
    assert items[i..][1..] == items[i + 1..];
    EncodeFirst(items[i..]);
  }

  /** What comes out of the getter for an item put in. */
  function Received(item: Item, rightFirst: bool): Item {
    match item
    case Number(Int(W64, true), value) =>
      if rightFirst then item.(value := value % 0x1_0000_0000 * 0x1_0000_0000 + value / 0x1_0000_0000) else item
    case Number(_, _) => item
    case Text(text) => Text(CString(text, NUL))
  }

  function ReceivedAll(items: seq<Item>, rightFirst: bool): seq<Item> {
    if items == [] then []
    else ReceivedAll(items[..|items| - 1], rightFirst) + [Received(items[|items| - 1], rightFirst)]
  }

  lemma ReceivedNext(items: seq<Item>, i: nat, rightFirst: bool)
    requires i < |items|
    ensures ReceivedAll(items[..i + 1], rightFirst)
         == ReceivedAll(items[..i], rightFirst) + [Received(items[i], rightFirst)]
  {
    assert items[..i + 1][..i] == items[..i];
  }

  /** Whether a value survives can be seen before it is put. */
  predicate Survives(item: Item, rightFirst: bool) {
    match item
    case Number(Int(W64, true), value) => rightFirst ==> value / 0x1_0000_0000 == value % 0x1_0000_0000
    case Number(_, _) => true
    case Text(text) => 0 !in text
  }

  lemma ReceivedIsSent(item: Item, rightFirst: bool)
    requires Fits(item)
    ensures Received(item, rightFirst) == item <==> Survives(item, rightFirst)
  {
    match item
    case Number(_, _) => Powers();
    case Text(text) => CStringKeeps(text, NUL);
  }

  /** A string with a NUL inside, and a one whose halves change places. */
  lemma NotReceived()
    ensures Received(Text([65, 0, 66]), false) == Text([65])
    ensures Received(Number(Int(W64, true), 1), true).value == 0x1_0000_0000
  {
    assert CString([NUL, 66], NUL) == [] && [65, NUL, 66][1..] == [NUL, 66];
  }

  method PutNumber(putter: StreamPutter, width: Width, big: bool, u: nat)
    requires putter.Valid() && u < Pow256(Size(width))
    modifies putter, putter.buffer, putter.base
    ensures putter.Valid()
    ensures putter.Stream() == old(putter.Stream()) + if big then Be(u, Size(width)) else Le(u, Size(width))
  {
    Powers();
    match width
    case W16 => if big { putter.PutInt16be(u); } else { putter.PutInt16le(u); }
    case W32 => if big { putter.PutInt32be(u); } else { putter.PutInt32le(u); }
    case W64 => if big { putter.PutInt64be(u); } else { putter.PutInt64le(u); }
  }

  method PutItem(putter: StreamPutter, item: Item)
    requires putter.Valid() && Fits(item)
    modifies putter, putter.buffer, putter.base
    ensures putter.Valid() && putter.Stream() == old(putter.Stream()) + Encode(item)
  {
    match item
    case Text(text) =>
      assert |text| % 0x1_0000_0000 == |text|;
      putter.PutString(text);
    case Number(kind, u) =>
      PutNumber(putter, kind.width, kind.big, u);
  }

  lemma NumberReads(bs: Bytes, v: nat, n: nat, big: bool, rest: Bytes)
    requires v < Pow256(n) && bs == (if big then Be(v, n) else Le(v, n)) + rest
    ensures |bs| >= n && bs[n..] == rest
    ensures v == if big then FromBe(bs[..n]) else FromLe(bs[..n])
  {
    assert bs[..n] == if big then Be(v, n) else Le(v, n);
    LeReads(v, n);
    BeReads(v, n);
  }

  /** With the right half got first the two halves change places. */
  lemma SwappedReads(bs: Bytes, v: nat, rest: Bytes)
    requires v < Pow256(8) && bs == Be(v, 8) + rest
    ensures FromBe(Ordered(bs[..8], true)) == v % 0x1_0000_0000 * 0x1_0000_0000 + v / 0x1_0000_0000
  {
    Powers();
    var low, high := v % 0x1_0000_0000, v / 0x1_0000_0000;
    Halves64(v, low, high);
    assert bs[..8] == Be(high, 4) + Be(low, 4);
    assert Ordered(bs[..8], true) == Be(low, 4) + Be(high, 4);
    FromBeJoin(Be(low, 4), Be(high, 4));
    BeReads(low, 4);
    BeReads(high, 4);
  }

  lemma Slices(bs: Bytes, head: Bytes, text: Bytes, rest: Bytes)
    requires bs == head + text + rest
    ensures bs[..|head|] == head
    ensures bs[|head|..][..|text|] == text && bs[|head|..][|text|..] == rest
  {
    assert bs[|head|..] == text + rest;
  }

  lemma TextReads(bs: Bytes, text: Bytes, rest: Bytes)
    requires |text| < 0x1_0000_0000 && bs == Le(|text|, 4) + text + rest
    ensures FromLe(bs[..4]) == |text|
    ensures bs[4..][..|text|] == text && bs[4..][|text|..] == rest
  {
    Slices(bs, Le(|text|, 4), text, rest);
    Powers();
    LeReads(|text|, 4);
  }

  method GetNumber(getter: StreamGetter, width: Width, big: bool, rightFirst: bool, ghost v: nat, ghost rest: Bytes)
    returns (r: Option<nat>)
    requires getter.Valid() && v < Pow256(Size(width))
    requires getter.Remaining() == (if big then Be(v, Size(width)) else Le(v, Size(width))) + rest
    modifies getter, getter.input
    ensures getter.Valid() && getter.Remaining() == rest
    ensures r == Some(Received(Number(Int(width, big), v), rightFirst).value)
  {
    ghost var bs := getter.Remaining();
    NumberReads(bs, v, Size(width), big, rest);
    match width {
      case W16 => if big { r := getter.GetInt16be(); } else { r := getter.GetInt16le(); }
      case W32 => if big { r := getter.GetInt32be(); } else { r := getter.GetInt32le(); }
      case W64 =>
        if big {
          SwappedReads(bs, v, rest);
          r := getter.GetInt64be(rightFirst);
        } else {
          r := getter.GetInt64le();
        }
    }
  }

  /** One get of the kind of the item whose bytes come next. */
  method GetItem(getter: StreamGetter, kind: Kind, rightFirst: bool, ghost item: Item, ghost rest: Bytes)
    returns (r: Option<Item>)
    requires getter.Valid() && Fits(item) && kind == KindOf(item)
    requires getter.Remaining() == Encode(item) + rest
    modifies getter, getter.input
    ensures getter.Valid() && getter.Remaining() == rest
    ensures r == Some(Received(item, rightFirst))
  {
    match kind {
      case String =>
        TextReads(getter.Remaining(), item.text, rest);
        var s := getter.GetString();
        r := Some(Text(s.value));
      case Int(width, big) =>
        var v := GetNumber(getter, width, big, rightFirst, item.value, rest);
        r := Some(Number(kind, v.value));
    }
  }

  method PutAll(putter: StreamPutter, items: seq<Item>)
    requires putter.Valid() && AllFit(items)
    modifies putter, putter.buffer, putter.base
    ensures putter.Valid() && putter.Stream() == old(putter.Stream()) + EncodeAll(items)
  {
    ghost var start := putter.Stream();
    for i := 0 to |items|
      invariant putter.Valid() && putter.Stream() == start + EncodeAll(items[..i])
    {
      assert items[..i + 1][..i] == items[..i];
      PutItem(putter, items[i]);
      Assoc(start, EncodeAll(items[..i]), Encode(items[i]));
    }
    assert items[..|items|] == items;
  }

  function Kinds(items: seq<Item>): (ks: seq<Kind>)
    requires AllFit(items)
    ensures |ks| == |items|
  {
    seq(|items|, i requires 0 <= i < |items| => KindOf(items[i]))
  }

  method GetNext(getter: StreamGetter, kind: Kind, rightFirst: bool, ghost items: seq<Item>, ghost i: nat)
    returns (r: Option<Item>)
    requires getter.Valid() && AllFit(items) && i < |items| && kind == KindOf(items[i])
    requires AllFit(items[i..]) && getter.Remaining() == EncodeAll(items[i..])
    modifies getter, getter.input
    ensures getter.Valid() && AllFit(items[i + 1..]) && getter.Remaining() == EncodeAll(items[i + 1..])
    ensures r == Some(Received(items[i], rightFirst))
  {
    EncodeNext(items, i);
    r := GetItem(getter, kind, rightFirst, items[i], EncodeAll(items[i + 1..]));
  }

  /** The gets that match a list of puts. */
  method GetAll(getter: StreamGetter, kinds: seq<Kind>, rightFirst: bool, ghost items: seq<Item>)
    returns (got: seq<Item>)
    requires getter.Valid() && AllFit(items) && kinds == Kinds(items)
    requires getter.Remaining() == EncodeAll(items)
    modifies getter, getter.input
    ensures getter.Valid() && getter.Remaining() == []
    ensures got == ReceivedAll(items, rightFirst)
  {
    got := [];
    assert items[0..] == items;
    for i := 0 to |kinds|
      invariant getter.Valid() && AllFit(items[i..])
      invariant getter.Remaining() == EncodeAll(items[i..])
      invariant got == ReceivedAll(items[..i], rightFirst)
    {
      ReceivedNext(items, i, rightFirst);
      var r := GetNext(getter, kinds[i], rightFirst, items, i);
      got := got + [r.value];
    }
    assert items[..|items|] == items;
  }

  predicate AllSurvive(items: seq<Item>, rightFirst: bool) {
    forall i :: 0 <= i < |items| ==> Survives(items[i], rightFirst)
  }

  lemma LastSurvives(init: seq<Item>, last: Item, rightFirst: bool)
    ensures AllSurvive(init + [last], rightFirst) <==> AllSurvive(init, rightFirst) && Survives(last, rightFirst)
  {
    if AllSurvive(init + [last], rightFirst) {
      assert forall i :: 0 <= i < |init| ==> init[i] == (init + [last])[i];
      assert (init + [last])[|init|] == last;
    }
  }

  lemma SameEnds<T>(a: seq<T>, x: T, b: seq<T>, y: T)
    requires |a| == |b|
    ensures a + [x] == b + [y] <==> a == b && x == y
  {
    assert (a + [x])[..|a|] == a && (b + [y])[..|b|] == b;
    assert (a + [x])[|a|] == x && (b + [y])[|b|] == y;
  }

  lemma LastReceived(init: seq<Item>, last: Item, got: seq<Item>, rightFirst: bool)
    requires Fits(last) && |got| == |init| && (got == init <==> AllSurvive(init, rightFirst))
    ensures got + [Received(last, rightFirst)] == init + [last] <==> AllSurvive(init + [last], rightFirst)
  {
    ReceivedIsSent(last, rightFirst);
    LastSurvives(init, last, rightFirst);
    SameEnds(got, Received(last, rightFirst), init, last);
  }

  lemma {:induction false} ReceivedIffSurvive(items: seq<Item>, rightFirst: bool)
    requires AllFit(items)
    ensures |ReceivedAll(items, rightFirst)| == |items|
    ensures ReceivedAll(items, rightFirst) == items <==> AllSurvive(items, rightFirst)
  {
    if items != [] {
      var init, last := items[..|items| - 1], items[|items| - 1];
      ReceivedIffSurvive(init, rightFirst);
      assert items == init + [last];
      LastReceived(init, last, ReceivedAll(init, rightFirst), rightFirst);
    }
  }

  /** Any puts, any buffer size, any chunks: the matching gets return what was put, exactly when
      every item can be seen to survive. */
  method Transfer(items: seq<Item>, buflen: nat, sizes: seq<nat>, rightFirst: bool) returns (got: seq<Item>)
    requires AllFit(items) && buflen >= 1
    ensures got == ReceivedAll(items, rightFirst)
    ensures got == items <==> AllSurvive(items, rightFirst)
  {
    var sink := new Sink();
    var putter := new StreamPutter(sink, buflen);
    PutAll(putter, items);
    putter.Flush();
    CutConcat(sink.written, sizes);
    var source := new Source(Cut(sink.written, sizes));
    var getter := new StreamGetter(source);
    got := GetAll(getter, Kinds(items), rightFirst, items);
    ReceivedIffSurvive(items, rightFirst);
  }

  /** What a string alone comes to, whatever its length. */
  function GotString(s: Bytes): Option<Bytes> {
    var len := |s| % 0x1_0000_0000;
    if len == 0xFFFF_FFFF then None else Some(CString(s[..len], NUL))
  }

  lemma StringSurvives(s: Bytes)
    ensures GotString(s) == Some(s) <==> |s| < 0xFFFF_FFFF && 0 !in s
  {
    CStringLength(s[..|s| % 0x1_0000_0000], NUL);
    if |s| < 0x1_0000_0000 {
      assert s[..|s|] == s;
      CStringKeeps(s, NUL);
    }
  }

  lemma LongTextReads(bs: Bytes, s: Bytes)
    requires bs == Le(|s| % 0x1_0000_0000, 4) + s
    ensures |bs| >= 4 && FromLe(bs[..4]) == |s| % 0x1_0000_0000 && bs[4..] == s
  {
    Powers();
    LeReads(|s| % 0x1_0000_0000, 4);
    assert bs[..4] == Le(|s| % 0x1_0000_0000, 4);
  }

  method PutAlone(s: Bytes, buflen: nat) returns (wire: Bytes)
    requires buflen >= 1
    ensures wire == Le(|s| % 0x1_0000_0000, 4) + s
  {
    var sink := new Sink();
    var putter := new StreamPutter(sink, buflen);
    putter.PutString(s);
    putter.Flush();
    wire := sink.written;
  }

  method GetAlone(wire: Bytes, sizes: seq<nat>, ghost s: Bytes) returns (r: Option<Bytes>)
    requires |wire| >= 4 && FromLe(wire[..4]) == |s| % 0x1_0000_0000 && wire[4..] == s
    ensures r == GotString(s)
  {
    CutConcat(wire, sizes);
    var source := new Source(Cut(wire, sizes));
    var getter := new StreamGetter(source);
    r := getter.GetString();
  }

  /** Any string put, through any buffer and any chunks, and got again; the length sent is cut to 32
      bits, so that it comes back whole exactly when it has no NUL and is not too long. */
  method TransferString(s: Bytes, buflen: nat, sizes: seq<nat>) returns (r: Option<Bytes>)
    requires buflen >= 1
    ensures r == GotString(s)
    ensures r == Some(s) <==> |s| < 0xFFFF_FFFF && 0 !in s
  {
    var wire := PutAlone(s, buflen);
    LongTextReads(wire, s);
    r := GetAlone(wire, sizes, s);
    StringSurvives(s);
  }
}
