/** The two builders of a DNS query: DnsPacket of the C++ runtime and getContent of the Android
    tester; and a reader of the question, after section 4.1.2 of RFC 1035. */
module DnsQuestion {
  import opened Common

  type Name = seq<byte>

  const DOT: byte := 46

  /** The low eight bits, as a cast to a byte keeps them. */
  function Low8(x: int): byte { (x % 256) as byte }

  // ---------- splitting a name ----------

  /** The index of the first dot, or the length. */
  function FirstDot(s: Name): (k: nat)
    ensures k <= |s| && (k < |s| ==> s[k] == DOT)
    ensures k == |s| && s != [] ==> s[|s| - 1] != DOT
  {
    if s == [] || s[0] == DOT then 0 else 1 + FirstDot(s[1..])
  }

  /** Everything between the dots. */
  function Pieces(s: Name): (ls: seq<Name>)
    ensures ls != []
    decreases |s|
  {
    var k := FirstDot(s);
    if k == |s| then [s] else [s[..k]] + Pieces(s[k + 1..])
  }

  /** split of missing.h: getline fails at the end of the input, so nothing after a last dot. */
  function CppSplit(s: Name): seq<Name>
    decreases |s|
  {
    if s == [] then []
    else
      var k := FirstDot(s);
      if k == |s| then [s] else [s[..k]] + CppSplit(s[k + 1..])
  }

  function WithoutTrailingEmpty(ls: seq<Name>): seq<Name> {
    if ls != [] && ls[|ls| - 1] == [] then WithoutTrailingEmpty(ls[..|ls| - 1]) else ls
  }

  /** String.split("\\."): all trailing empty pieces go, but without a dot the whole text is the
      one piece. */
  function JavaSplit(s: Name): seq<Name> {
    if FirstDot(s) == |s| then [s] else WithoutTrailingEmpty(Pieces(s))
  }

  /** The names for which no convention about empty ends matters. */
  predicate Plain(s: Name) {
    s != [] && s[|s| - 1] != 46
  }

  lemma TailIsPlain(s: Name, k: nat)
    requires k < |s| && s[k] == DOT
    ensures Plain(s[k + 1..]) <==> Plain(s)
    ensures s == s[..k] + [DOT] + s[k + 1..]
  {
  }

  /** With a dot in the name both splits cut off the same first piece. */
  lemma SplitStep(s: Name, head: Name, tail: Name)
    requires FirstDot(s) < |s| && head == s[..FirstDot(s)] && tail == s[FirstDot(s) + 1..]
    ensures Pieces(s) == [head] + Pieces(tail)
    ensures CppSplit(s) == [head] + CppSplit(tail)
    ensures Plain(tail) <==> Plain(s)
    ensures s == head + [DOT] + tail
  {
    TailIsPlain(s, FirstDot(s));
  }

  lemma {:induction false} CppSplitIsPieces(s: Name)
    ensures Plain(s) ==> CppSplit(s) == Pieces(s)
    ensures !Plain(s) ==> Pieces(s) == CppSplit(s) + [[]]
    decreases |s|
  {
    var k := FirstDot(s);
    if k < |s| {
      var head, tail := s[..k], s[k + 1..];
      SplitStep(s, head, tail);
      CppSplitIsPieces(tail);
      Assoc([head], CppSplit(tail), [[]]);
    }
  }

  lemma {:induction false} LastPiece(s: Name)
    ensures Pieces(s)[|Pieces(s)| - 1] == [] <==> !Plain(s)
    decreases |s|
  {
    var k := FirstDot(s);
    if k < |s| {
      var head, tail := s[..k], s[k + 1..];
      SplitStep(s, head, tail);
      LastPiece(tail);
    }
  }

  lemma JavaSplitIsPieces(s: Name)
    ensures Plain(s) || s == [] ==> JavaSplit(s) == Pieces(s)
    ensures !Plain(s) && s != [] ==> JavaSplit(s) == WithoutTrailingEmpty(Pieces(s)[..|Pieces(s)| - 1])
  {
    LastPiece(s);
  }

  function JoinDots(ls: seq<Name>): Name {
    if ls == [] then [] else if |ls| == 1 then ls[0] else ls[0] + [46] + JoinDots(ls[1..])
  }

  lemma {:induction false} JoinPieces(s: Name)
    ensures JoinDots(Pieces(s)) == s
    decreases |s|
  {
    var k := FirstDot(s);
    if k < |s| {
      var head, tail := s[..k], s[k + 1..];
      SplitStep(s, head, tail);
      JoinPieces(tail);
      assert Pieces(s)[1..] == Pieces(tail);
    }
  }

  // ---------- the packet ----------

  function Header(id: int): seq<byte> {
    [Low8(id / 256), Low8(id), 1, 0, 0, 1, 0, 0, 0, 0, 0, 0]
  }

  /** The root label, type A, class IN. */
  const TRAILER: seq<byte> := [0, 0, 1, 0, 1]

  /** Each label behind its length; the length is cut to a byte. */
  function Labels(ls: seq<Name>): seq<byte> {
    if ls == [] then [] else Labels(ls[..|ls| - 1]) + ([Low8(|ls[|ls| - 1]|)] + ls[|ls| - 1])
  }

  function CppPacket(name: Name, id: int): seq<byte> {
    Header(id) + Labels(CppSplit(name)) + TRAILER
  }

  /** The Java array has length |name| + 18 and starts as zeros; used bytes of it are written. */
  function JavaUsed(name: Name): nat {
    12 + |Labels(JavaSplit(name))| + 5
  }

  function JavaPacket(name: Name, id: int): seq<byte>
    requires JavaUsed(name) <= |name| + 18
  {
    Header(id) + Labels(JavaSplit(name)) + TRAILER + seq(|name| + 18 - JavaUsed(name), _ => 0)
  }

  lemma {:induction false} LabelsConcat(a: seq<Name>, b: seq<Name>)
    ensures Labels(a + b) == Labels(a) + Labels(b)
  {
    if b == [] {
      assert a + b == a;
    } else {
      var init, last := b[..|b| - 1], b[|b| - 1];
      LabelsConcat(a, init);
      assert (a + b)[..|a + b| - 1] == a + init;
      Assoc(Labels(a), Labels(init), [Low8(|last|)] + last);
    }
  }

  lemma LabelsOne(l: Name)
    ensures Labels([l]) == [Low8(|l|)] + l
  {
    assert [l][..0] == [];
  }

  /** Every piece costs its own length and one more; so does every dot but the last. */
  lemma {:induction false} PiecesLength(s: Name)
    ensures |Labels(Pieces(s))| == |s| + 1
    decreases |s|
  {
    var k := FirstDot(s);
    if k < |s| {
      var head, tail := s[..k], s[k + 1..];
      SplitStep(s, head, tail);
      PiecesLength(tail);
      LabelsOne(head);
      LabelsConcat([head], Pieces(tail));
    } else {
      LabelsOne(s);
    }
  }

  lemma {:induction false} TrailingEmptyLength(ls: seq<Name>)
    ensures |Labels(WithoutTrailingEmpty(ls))| <= |Labels(ls)|
  {
    if ls != [] && ls[|ls| - 1] == [] {
      TrailingEmptyLength(ls[..|ls| - 1]);
    }
  }

  /** The array is never too short, and it is filled exactly unless the name ends in a dot. */
  lemma JavaFits(name: Name)
    ensures JavaUsed(name) <= |name| + 18
    ensures JavaUsed(name) == |name| + 18 <==> Plain(name) || name == []
  {
    PiecesLength(name);
    JavaSplitIsPieces(name);
    if !Plain(name) && name != [] {
      LastPiece(name);
      var ls := Pieces(name);
      assert ls == ls[..|ls| - 1] + [[]];
      TrailingEmptyLength(ls[..|ls| - 1]);
    }
  }

  /** The two programs send the same bytes exactly for the names that are not empty and do not end
      in a dot, whatever the lengths of their labels. */
  lemma SamePacketIffPlain(name: Name, id: int)
    ensures JavaUsed(name) <= |name| + 18
    ensures CppPacket(name, id) == JavaPacket(name, id) <==> Plain(name)
  {
    JavaFits(name);
    CppSplitIsPieces(name);
    JavaSplitIsPieces(name);
    if Plain(name) {
      assert JavaPacket(name, id) == CppPacket(name, id) + [];
    } else {
      PiecesLength(name);
      LabelsConcat(CppSplit(name), [[]]);
      LabelsOne([]);
      assert |CppPacket(name, id)| == |name| + 17;
      assert |JavaPacket(name, id)| == |name| + 18;
    }
  }

  /** For the name "a." the Java packet has one byte more. */
  lemma TrailingDotDiffers(id: int)
    ensures JavaUsed([97, 46]) <= 20 && CppPacket([97, 46], id) != JavaPacket([97, 46], id)
  {
    SamePacketIffPlain([97, 46], id);
  }

  // ---------- reading the question ----------

  /** QNAME: labels of 1 to 63 bytes, each behind its length, up to a zero. */
  function ReadName(bs: seq<byte>): Option<(seq<Name>, seq<byte>)>
    decreases |bs|
  {
    if bs == [] then None
    else if bs[0] == 0 then Some(([], bs[1..]))
    else if bs[0] > 63 || |bs| < 1 + bs[0] as int then None
    else
      match ReadName(bs[1 + bs[0] as int..])
      case None => None
      case Some((ls, rest)) => Some(([bs[1..1 + bs[0] as int]] + ls, rest))
  }

  /** The id and the name of a standard query, with recursion desired, that holds one question, of type
      A and class IN, and no other record. */
  function ReadQuestion(bs: seq<byte>): Option<(int, Name)> {
    if |bs| < 12 || bs[2..12] != [1, 0, 0, 1, 0, 0, 0, 0, 0, 0] then None
    else
      match ReadName(bs[12..])
      case None => None
      case Some((ls, rest)) =>
        if rest == [0, 1, 0, 1] then Some((bs[0] as int * 256 + bs[1] as int, JoinDots(ls))) else None
  }

  predicate Proper(ls: seq<Name>) {
    forall i :: 0 <= i < |ls| ==> 1 <= |ls[i]| <= 63
  }

  lemma {:induction false} ReadLabels(ls: seq<Name>, rest: seq<byte>)
    requires Proper(ls)
    ensures ReadName(Labels(ls) + ([0] + rest)) == Some((ls, rest))
    decreases |ls|
  {
    if ls == [] {
      assert Labels(ls) + ([0] + rest) == [0] + rest;
    } else {
      var l := ls[0];
      assert ls == [l] + ls[1..];
      LabelsConcat([l], ls[1..]);
      LabelsOne(l);
      var tail := Labels(ls[1..]) + ([0] + rest);
      ReadLabels(ls[1..], rest);
      var bs := Labels(ls) + ([0] + rest);
      Assoc(Labels([l]), Labels(ls[1..]), [0] + rest);
      assert bs == Labels([l]) + tail && Low8(|l|) as int == |l|;
      assert bs[1..1 + |l|] == l && bs[1 + |l|..] == tail;
    }
  }

  lemma TwoBytes(id: int)
    ensures Low8(id / 256) as int * 256 + Low8(id) as int == id % 65536
  {
    assert id / 256 % 256 * 256 + id % 256 == id % 65536;
  }

  lemma HeaderParts(id: int)
    ensures |Header(id)| == 12 && Header(id)[0] == Low8(id / 256) && Header(id)[1] == Low8(id)
    ensures Header(id)[2..] == [1, 0, 0, 1, 0, 0, 0, 0, 0, 0]
  {
  }

  /** Reading any packet made of the header, some bytes and a question about a name. */
  lemma ReadPacket(bs: seq<byte>, id: int, question: seq<byte>)
    requires bs == Header(id) + question
    ensures bs[12..] == question && bs[2..12] == [1, 0, 0, 1, 0, 0, 0, 0, 0, 0]
    ensures bs[0] as int * 256 + bs[1] as int == id % 65536
  {
    HeaderParts(id);
    TwoBytes(id);
    var h := Header(id);
    assert bs[2..12] == h[2..];
    assert bs[0] == h[0] && bs[1] == h[1];
  }

  lemma PacketReadsBack(bs: seq<byte>, id: int, labels: seq<byte>, ls: seq<Name>)
    requires bs == Header(id) + labels + TRAILER && labels == Labels(ls) && Proper(ls)
    ensures ReadQuestion(bs) == Some((id % 65536, JoinDots(ls)))
  {
    var zero, rest: seq<byte> := [0], [0, 1, 0, 1];
    ReadLabels(ls, rest);
    assert TRAILER == zero + rest;
    Assoc(Header(id), labels, zero + rest);
    ReadPacket(bs, id, labels + (zero + rest));
  }

  lemma ProperIsPlain(name: Name)
    requires Proper(Pieces(name))
    ensures Plain(name)
  {
    LastPiece(name);
  }

  /** Either packet for a host name, read back, gives the id and the name. */
  lemma QuestionReadsBack(name: Name, id: int)
    requires Proper(Pieces(name))
    ensures ReadQuestion(CppPacket(name, id)) == Some((id % 65536, name))
    ensures JavaUsed(name) <= |name| + 18 && JavaPacket(name, id) == CppPacket(name, id)
  {
    ProperIsPlain(name);
    SamePacketIffPlain(name, id);
    CppSplitIsPieces(name);
    JoinPieces(name);
    PacketReadsBack(CppPacket(name, id), id, Labels(Pieces(name)), Pieces(name));
  }

  // ---------- the C++ program ----------

  /** A sink of bytes. */
  class Putter {
    var out: seq<byte>

    constructor ()
      ensures out == []
    {
      out := [];
    }

    method PutByte(b: byte)
      modifies this
      ensures out == old(out) + [b]
    {
      out := out + [b];
    }

    method PutIterator(s: seq<byte>)
      modifies this
      ensures out == old(out) + s
    {
      for i := 0 to |s|
        invariant out == old(out) + s[..i]
      {
        PutByte(s[i]);
        assert s[..i + 1] == s[..i] + [s[i]];
      }
      assert s[..|s|] == s;
    }
  }

  lemma {:induction false} FirstDotAt(s: Name, k: nat)
    requires k <= |s| && DOT !in s[..k] && (k < |s| ==> s[k] == DOT)
    ensures FirstDot(s) == k
  {
    if k > 0 {
      assert s[..k][0] == s[0] && s[..k][1..] == s[1..][..k - 1];
      FirstDotAt(s[1..], k - 1);
    }
  }

  lemma FirstLine(s: Name, item: Name, rest: Name)
    requires s != [] && DOT !in item
    requires s == item + [DOT] + rest || (s == item && rest == [])
    ensures CppSplit(s) == [item] + CppSplit(rest)
  {
    assert s[..|item|] == item;
    FirstDotAt(s, |item|);
  }

  /** std::getline: takes what is before the next dot and drops the dot, or takes the rest; with
      nothing left to take it fails. */
  method GetLine(s: Name, pos: nat) returns (ok: bool, item: Name, next: nat)
    requires pos <= |s|
    ensures ok <==> pos < |s|
    ensures ok ==> pos < next <= |s| && CppSplit(s[pos..]) == [item] + CppSplit(s[next..])
  {
    item := [];
    next := pos;
    if pos == |s| {
      return false, item, next;
    }
    while next < |s| && s[next] != DOT
      invariant pos <= next <= |s|
      invariant item == s[pos..next] && DOT !in item
    {
      item := item + [s[next]];
      next := next + 1;
    }
    ok := true;
    if next < |s| {
      next := next + 1;
    }
    FirstLine(s[pos..], item, s[next..]);
  }

  method Split(s: Name) returns (elems: seq<Name>)
    ensures elems == CppSplit(s)
  {
    elems := [];
    var pos := 0;
    assert s[0..] == s;
    while true
      invariant pos <= |s|
      invariant elems + CppSplit(s[pos..]) == CppSplit(s)
      decreases |s| - pos
    {
      var ok, item, next := GetLine(s, pos);
      if !ok {
        break;
      }
      Assoc(elems, [item], CppSplit(s[next..]));
      elems := elems + [item];
      pos := next;
    }
  }

  class DnsPacket {
    var hostname: Name
    var packetId: int

    constructor (host: Name, pid: int)
      ensures hostname == host && packetId == pid
    {
      hostname, packetId := host, pid;
    }

    method PutLabel(putter: Putter, piece: Name, ghost start: seq<byte>, ghost done: seq<Name>)
      requires putter.out == start + Labels(done)
      modifies putter
      ensures putter.out == start + Labels(done + [piece])
    {
      putter.PutByte(Low8(|piece|));
      putter.PutIterator(piece);
      assert (done + [piece])[..|done|] == done;
    }

    method PutTrailer(putter: Putter)
      modifies putter
      ensures putter.out == old(putter.out) + TRAILER
    {
      putter.PutByte(0);
      putter.PutByte(0);
      putter.PutByte(1);
      putter.PutByte(0);
      putter.PutByte(1);
    }

    method PutHeader(putter: Putter)
      modifies putter
      ensures putter.out == old(putter.out) + Header(packetId)
    {
      putter.PutByte(Low8(packetId / 256));
      putter.PutByte(Low8(packetId));
      putter.PutByte(1);
      putter.PutByte(0);
      putter.PutByte(0);
      putter.PutByte(1);
      ghost var six := putter.out;
      for i := 0 to 6
        invariant putter.out == six + seq(i, _ => 0)
      {
        putter.PutByte(0);
      }
    }

    method PutterSerialize(putter: Putter)
      modifies putter
      ensures putter.out == old(putter.out) + CppPacket(hostname, packetId)
    {
      var splitted := Split(hostname);
      PutHeader(putter);
      ghost var start := putter.out;
      for k := 0 to |splitted|
        invariant putter.out == start + Labels(splitted[..k])
      {
        PutLabel(putter, splitted[k], start, splitted[..k]);
        assert splitted[..k + 1] == splitted[..k] + [splitted[k]];
      }
      assert splitted[..|splitted|] == splitted;
      PutTrailer(putter);
      Assoc(old(putter.out), Header(packetId), Labels(splitted));
      Assoc(old(putter.out), Header(packetId) + Labels(splitted), TRAILER);
    }
  }

  // ---------- the Java program ----------

  predicate ZeroFrom(bytes: array<byte>, index: int)
    reads bytes
  {
    forall i :: 0 <= index <= i < bytes.Length ==> bytes[i] == 0
  }

  /** One write at the end of what is filled so far. */
  method Fill(bytes: array<byte>, n: nat, b: byte)
    requires n < bytes.Length && ZeroFrom(bytes, n)
    modifies bytes
    ensures bytes[..n + 1] == old(bytes[..n]) + [b] && ZeroFrom(bytes, n + 1)
  {
    bytes[n] := b;
  }

  method FillHeader(bytes: array<byte>, id: int)
    requires bytes.Length >= 12 && ZeroFrom(bytes, 0)
    modifies bytes
    ensures bytes[..12] == Header(id) && ZeroFrom(bytes, 12)
  {
    bytes[0] := Low8(id / 256);
    bytes[1] := Low8(id);
    bytes[2] := 1;
    bytes[3], bytes[4] := 0, 0;
    bytes[5] := 1;
    for i := 0 to 6
      invariant bytes[..6] == Header(id)[..6] && ZeroFrom(bytes, 6)
    {
      bytes[6 + i] := 0;
    }
  }

  /** The length, then the characters. */
  method FillSection(bytes: array<byte>, start: nat, section: Name) returns (index: nat)
    requires start + 1 + |section| <= bytes.Length && ZeroFrom(bytes, start)
    modifies bytes
    ensures index == start + 1 + |section|
    ensures bytes[..index] == old(bytes[..start]) + ([Low8(|section|)] + section)
    ensures ZeroFrom(bytes, index)
  {
    Fill(bytes, start, Low8(|section|));
    index := start + 1;
    ghost var before := bytes[..index];
    for i := 0 to |section|
      invariant bytes[..index + i] == before + section[..i]
      invariant ZeroFrom(bytes, index + i)
    {
      Fill(bytes, index + i, section[i]);
      assert section[..i + 1] == section[..i] + [section[i]];
    }
    assert section[..|section|] == section;
    index := index + |section|;
  }

  method FillTrailer(bytes: array<byte>, index: nat)
    requires index + 5 <= bytes.Length && ZeroFrom(bytes, index)
    modifies bytes
    ensures bytes[..index + 5] == old(bytes[..index]) + TRAILER && ZeroFrom(bytes, index + 5)
  {
    Fill(bytes, index, 0);
    Fill(bytes, index + 1, 0);
    Fill(bytes, index + 2, 1);
    Fill(bytes, index + 3, 0);
    Fill(bytes, index + 4, 1);
  }

  /** Every index of every write is inside the array. */
  method GetContent(name: Name, id: int) returns (bytes: array<byte>)
    ensures JavaUsed(name) <= |name| + 18
    ensures bytes[..] == JavaPacket(name, id)
  {
    JavaFits(name);
    var lists := JavaSplit(name);
    bytes := new byte[16 + |name| + 2](_ => 0);
    FillHeader(bytes, id);
    var index := 12;
    for k := 0 to |lists|
      invariant index == 12 + |Labels(lists[..k])| <= JavaUsed(name) - 5
      invariant bytes[..index] == Header(id) + Labels(lists[..k])
      invariant ZeroFrom(bytes, index)
    {
      LabelsPrefix(lists, k);
      index := FillSection(bytes, index, lists[k]);
      Assoc(Header(id), Labels(lists[..k]), [Low8(|lists[k]|)] + lists[k]);
    }
    assert lists[..|lists|] == lists;
    FillTrailer(bytes, index);
    ZeroTail(bytes, JavaUsed(name));
  }

  lemma LabelsPrefix(ls: seq<Name>, k: nat)
    requires k < |ls|
    ensures Labels(ls[..k + 1]) == Labels(ls[..k]) + ([Low8(|ls[k]|)] + ls[k])
    ensures |Labels(ls[..k + 1])| <= |Labels(ls)|
  {
    assert ls[..k + 1][..k] == ls[..k] && ls == ls[..k + 1] + ls[k + 1..];
    LabelsConcat(ls[..k + 1], ls[k + 1..]);
  }

  lemma ZeroTail(bytes: array<byte>, n: nat)
    requires n <= bytes.Length && ZeroFrom(bytes, n)
    ensures bytes[..] == bytes[..n] + seq(bytes.Length - n, _ => 0)
  {
    assert bytes[n..] == seq(bytes.Length - n, _ => 0);
  }
}
