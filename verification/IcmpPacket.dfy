/** ICMP echo packets: writing, reading back, and the Internet checksum. The code adds up 16-bit
    words in the order of the machine and folds the carries in twice; the reference is the
    one's-complement sum of section 1 of RFC 1071 over words in network order. */
module IcmpPacket {
  import opened Common

  type word = x: int | 0 <= x < 65536

  // ---------- sums of words ----------

  /** The word that two neighbouring bytes are on a machine of either order. */
  function Word(first: byte, second: byte, little: bool): word {
    if little then second as int * 256 + first as int else first as int * 256 + second as int
  }

  predicate Even(bytes: seq<byte>) { |bytes| % 2 == 0 }

  function Sum(bytes: seq<byte>, little: bool): nat
    requires Even(bytes)
  {
    if bytes == [] then 0
    else
      var n := |bytes|;
      Sum(bytes[..n - 2], little) + Word(bytes[n - 2], bytes[n - 1], little)
  }

  /** One's-complement addition of two words: a carry comes back in at the low end. */
  function OnesAdd(a: word, b: word): word {
    if a + b < 65536 then a + b else a + b - 65535
  }

  function OnesSum(bytes: seq<byte>): word
    requires Even(bytes)
  {
    if bytes == [] then 0
    else
      var n := |bytes|;
      OnesAdd(OnesSum(bytes[..n - 2]), Word(bytes[n - 2], bytes[n - 1], false))
  }

  /** What the checksum is for: the words add up to all ones. */
  predicate Sound(bytes: seq<byte>)
    requires Even(bytes)
  {
    OnesSum(bytes) == 0xFFFF
  }

  /** s is a multiple of 65535, but not zero. */
  predicate Whole(s: nat) { s > 0 && s % 65535 == 0 }

  /** r is the remainder of s in the range 1..65535, or 0 for 0. */
  predicate Residue(s: nat, r: word) {
    (s == 0 <==> r == 0) && (s - r) % 65535 == 0
  }

  lemma AddResidue(s: nat, r: word, w: word)
    requires Residue(s, r)
    ensures Residue(s + w, OnesAdd(r, w))
  {
    var q := (s - r) / 65535;
    assert s - r == 65535 * q;
    if r + w >= 65536 {
      assert s + w - (r + w - 65535) == 65535 * (q + 1);
    }
  }

  lemma {:induction false} OnesSumIsResidue(bytes: seq<byte>)
    requires Even(bytes)
    ensures Residue(Sum(bytes, false), OnesSum(bytes))
  {
    if bytes != [] {
      var n := |bytes|;
      OnesSumIsResidue(bytes[..n - 2]);
      AddResidue(Sum(bytes[..n - 2], false), OnesSum(bytes[..n - 2]), Word(bytes[n - 2], bytes[n - 1], false));
    }
  }

  lemma ResidueIsWhole(s: nat, r: word)
    requires Residue(s, r)
    ensures r == 0xFFFF <==> Whole(s)
  {
    var q := (s - r) / 65535;
    assert s == 65535 * q + r;
    assert 0 < r < 0xFFFF ==> s % 65535 == r;
    assert r == 0xFFFF ==> s == 65535 * (q + 1);
  }

  /** The first bytes, or the second bytes, of all words. */
  function Column(bytes: seq<byte>, second: bool): nat
    requires Even(bytes)
  {
    if bytes == [] then 0
    else
      var n := |bytes|;
      Column(bytes[..n - 2], second) + (if second then bytes[n - 1] else bytes[n - 2]) as int
  }

  /** Swapping the bytes of every word is a multiplication by 256, up to multiples of 65535. */
  lemma {:induction false} SwappedSum(bytes: seq<byte>, little: bool)
    requires Even(bytes)
    ensures 256 * Sum(bytes, little) == Sum(bytes, !little) + 65535 * Column(bytes, little)
  {
    if bytes != [] {
      SwappedSum(bytes[..|bytes| - 2], little);
    }
  }

  lemma WholeScaled(s: nat, t: nat, c: nat, d: nat)
    requires 256 * s == t + 65535 * c && 256 * t == s + 65535 * d && Whole(s)
    ensures Whole(t)
  {
    var q := s / 65535;
    assert s == 65535 * q;
    assert t == 65535 * (256 * q - c);
  }

  lemma WholeSwapped(bytes: seq<byte>, little: bool)
    requires Even(bytes) && Whole(Sum(bytes, little))
    ensures Whole(Sum(bytes, !little))
  {
    SwappedSum(bytes, little);
    SwappedSum(bytes, !little);
    WholeScaled(Sum(bytes, little), Sum(bytes, !little), Column(bytes, little), Column(bytes, !little));
  }

  /** The order of the machine does not matter. */
  lemma SoundIsWhole(bytes: seq<byte>, little: bool)
    requires Even(bytes)
    ensures Sound(bytes) <==> Whole(Sum(bytes, little))
  {
    OnesSumIsResidue(bytes);
    ResidueIsWhole(Sum(bytes, false), OnesSum(bytes));
    if Whole(Sum(bytes, true)) {
      WholeSwapped(bytes, true);
    } else if Whole(Sum(bytes, false)) {
      WholeSwapped(bytes, false);
    }
  }

  // ---------- two folds ----------

  /** The sum is a size_t, which is 32 or 64 bits wide. */
  datatype Machine = Machine(little: bool, wide: bool)

  function Wrapped(sum: nat, m: Machine): nat {
    if m.wide then sum % 0x1_0000_0000_0000_0000 else sum % 0x1_0000_0000
  }

  /** How often the sum has wrapped. */
  function Wraps(sum: nat, m: Machine): nat {
    if m.wide then sum / 0x1_0000_0000_0000_0000 else sum / 0x1_0000_0000
  }

  function FoldOnce(sum: nat): nat { sum / 65536 + sum % 65536 }

  /** The complement of the sum folded twice, cut to a word. */
  function Check(sum: nat): word {
    65535 - (FoldOnce(sum) + FoldOnce(sum) / 65536) % 65536
  }

  /** Carries that are lost: those out of the second fold, and those out of the sum itself. */
  function LostCarries(sum: nat, m: Machine): nat {
    FoldOnce(FoldOnce(Wrapped(sum, m))) / 65536 + Wraps(sum, m)
  }

  predicate TwoFoldsEnough(sum: nat, m: Machine) {
    LostCarries(sum, m) % 65535 == 0
  }

  /** With its check a sum is a multiple of 65535, plus one for each carry out of the second fold. */
  lemma CheckLeaves(sum: nat) returns (q: nat)
    ensures sum + Check(sum) == 65535 * q + FoldOnce(FoldOnce(sum)) / 65536 && q > 0
  {
    var once := FoldOnce(sum);
    var twice := FoldOnce(once);
    assert (once + once / 65536) % 65536 == twice % 65536 by {
      assert once + once / 65536 == 65536 * (once / 65536) + twice;
    }
    assert twice % 65536 == twice - 65536 * (twice / 65536);
    q := sum / 65536 + once / 65536 + 1 + twice / 65536;
  }

  lemma WrapLeaves(sum: nat, m: Machine) returns (q: nat)
    ensures sum == Wrapped(sum, m) + 65535 * q + Wraps(sum, m)
  {
    q := Wraps(sum, m) * if m.wide then 0xFFFF_FFFF_FFFF_FFFF / 65535 else 0xFFFF_FFFF / 65535;
  }

  lemma Multiples(x: nat, q: nat, c: nat)
    requires x == 65535 * q + c
    ensures x % 65535 == 0 <==> c % 65535 == 0
  {
    assert x % 65535 == c % 65535;
  }

  /** The check of the wrapped sum completes the sum exactly when no carry is lost. */
  lemma CheckMakesWhole(sum: nat, m: Machine)
    ensures Whole(sum + Check(Wrapped(sum, m))) <==> TwoFoldsEnough(sum, m)
  {
    var q := CheckLeaves(Wrapped(sum, m));
    var p := WrapLeaves(sum, m);
    Multiples(sum + Check(Wrapped(sum, m)), p + q, LostCarries(sum, m));
  }

  lemma SmallSumIsEnough(sum: nat, m: Machine)
    requires sum <= 0xFFFF_FFFF || (m.wide && sum <= 0x1_0000_FFFE)
    ensures TwoFoldsEnough(sum, m)
  {
  }

  // ---------- the checksum in place ----------

  /** The two bytes in which a machine stores a word. */
  function Stored(w: word, little: bool): (byte, byte) {
    if little then ((w % 256) as byte, (w / 256) as byte) else ((w / 256) as byte, (w % 256) as byte)
  }

  /** The bytes with a word stored in the place of the checksum. */
  function WithCheck(bytes: seq<byte>, w: word, little: bool): (r: seq<byte>)
    requires |bytes| >= 4
    ensures |r| == |bytes|
  {
    bytes[2 := Stored(w, little).0][3 := Stored(w, little).1]
  }

  lemma {:induction false} SumWithCheck(bytes: seq<byte>, w: word, little: bool)
    requires Even(bytes) && |bytes| >= 4 && bytes[2] == 0 && bytes[3] == 0
    ensures Sum(WithCheck(bytes, w, little), little) == Sum(bytes, little) + w
  {
    var n, after := |bytes|, WithCheck(bytes, w, little);
    if n == 4 {
      assert after[..2] == bytes[..2];
    } else {
      SumWithCheck(bytes[..n - 2], w, little);
      assert after[..n - 2] == WithCheck(bytes[..n - 2], w, little);
    }
  }

  lemma {:induction false} SumBound(bytes: seq<byte>, little: bool)
    requires Even(bytes)
    ensures 2 * Sum(bytes, little) <= 65535 * |bytes|
  {
    if bytes != [] {
      SumBound(bytes[..|bytes| - 2], little);
    }
  }

  /** After the checksum is stored the packet is sound exactly when no carry was lost. */
  lemma ChecksumHolds(bytes: seq<byte>, m: Machine)
    requires Even(bytes) && |bytes| >= 4 && bytes[2] == 0 && bytes[3] == 0
    ensures var sum := Sum(bytes, m.little);
            Sound(WithCheck(bytes, Check(Wrapped(sum, m)), m.little)) <==> TwoFoldsEnough(sum, m)
  {
    var sum := Sum(bytes, m.little);
    SumWithCheck(bytes, Check(Wrapped(sum, m)), m.little);
    SoundIsWhole(WithCheck(bytes, Check(Wrapped(sum, m)), m.little), m.little);
    CheckMakesWhole(sum, m);
  }

  /** The longest packets for which no carry can be lost. */
  function Limit(m: Machine): nat { if m.wide then 131078 else 131076 }

  lemma ShortIsEnough(bytes: seq<byte>, m: Machine)
    requires Even(bytes) && 4 <= |bytes| <= Limit(m) && bytes[2] == 0 && bytes[3] == 0
    ensures TwoFoldsEnough(Sum(bytes, m.little), m)
  {
    SumWithCheck(bytes, 65535, m.little);
    SumBound(WithCheck(bytes, 65535, m.little), m.little);
    SmallSumIsEnough(Sum(bytes, m.little), m);
  }

  /** A word of one, the place of the checksum, and k words of all ones. */
  function AllOnes(k: nat, little: bool): (r: seq<byte>)
    ensures |r| == 4 + 2 * k && r[2] == 0 && r[3] == 0
  {
    [Stored(1, little).0, Stored(1, little).1, 0, 0] + seq(2 * k, _ => 255)
  }

  lemma SumNext(bytes: seq<byte>, a: byte, b: byte, little: bool)
    requires Even(bytes)
    ensures Sum(bytes + [a, b], little) == Sum(bytes, little) + Word(a, b, little)
  {
    var n := |bytes| + 2;
    assert (bytes + [a, b])[..n - 2] == bytes;
  }

  lemma SumOfTwo(a: byte, b: byte, c: byte, d: byte, little: bool)
    ensures Sum([a, b] + [c, d], little) == Word(a, b, little) + Word(c, d, little)
  {
    var none: seq<byte> := [];
    SumNext(none, a, b, little);
    assert none + [a, b] == [a, b];
    SumNext([a, b], c, d, little);
  }

  lemma FirstTwoWords(bytes: seq<byte>, little: bool)
    requires |bytes| == 4
    ensures Sum(bytes, little) == Word(bytes[0], bytes[1], little) + Word(bytes[2], bytes[3], little)
  {
    SumOfTwo(bytes[0], bytes[1], bytes[2], bytes[3], little);
    assert bytes == [bytes[0], bytes[1]] + [bytes[2], bytes[3]];
  }

  lemma {:induction false} SumOfOnes(start: seq<byte>, ones: seq<byte>, little: bool)
    requires Even(start) && Even(ones) && forall i :: 0 <= i < |ones| ==> ones[i] == 255
    ensures 2 * Sum(start + ones, little) == 2 * Sum(start, little) + 65535 * |ones|
    decreases |ones|
  {
    if ones == [] {
      assert start + ones == start;
    } else {
      var before := ones[..|ones| - 2];
      SumOfOnes(start, before, little);
      SumNext(start + before, 255, 255, little);
      assert start + ones == start + before + [255, 255];
    }
  }

  lemma AllOnesSum(k: nat, little: bool)
    ensures Sum(AllOnes(k, little), little) == 1 + 65535 * k
  {
    var start: seq<byte> := [Stored(1, little).0, Stored(1, little).1, 0, 0];
    FirstTwoWords(start, little);
    SumOfOnes(start, seq(2 * k, _ => 255), little);
  }

  lemma OneCarryLost(m: Machine)
    ensures !TwoFoldsEnough(1 + 65535 * (Limit(m) / 2 - 1), m)
  {
    if m.wide {
      assert 1 + 65535 * (Limit(m) / 2 - 1) == 0x1_0000_FFFF;
      assert FoldOnce(0x1_0000_FFFF) == 0x1_FFFF;
    } else {
      assert 1 + 65535 * (Limit(m) / 2 - 1) == 0x1_0000_0000;
      assert FoldOnce(0) == 0;
    }
  }

  /** One word beyond the limit a packet exists whose stored checksum is wrong. */
  lemma LongerFails(m: Machine)
    ensures var bytes := AllOnes(Limit(m) / 2 - 1, m.little);
            |bytes| == Limit(m) + 2
            && !Sound(WithCheck(bytes, Check(Wrapped(Sum(bytes, m.little), m)), m.little))
  {
    var k := Limit(m) / 2 - 1;
    AllOnesSum(k, m.little);
    OneCarryLost(m);
    ChecksumHolds(AllOnes(k, m.little), m);
  }

  lemma Remainder(x: nat, q: nat, r: nat, m: Machine)
    requires r == Wrapped(r, m)
    requires x == r + q * if m.wide then 0x1_0000_0000_0000_0000 else 0x1_0000_0000
    ensures Wrapped(x, m) == r
  {
  }

  lemma WrapStep(sum: nat, w: word, m: Machine)
    ensures Wrapped(Wrapped(sum, m) + w, m) == Wrapped(sum + w, m)
  {
    var range := if m.wide then 0x1_0000_0000_0000_0000 else 0x1_0000_0000;
    var r := Wrapped(sum, m) + w;
    if r < range {
      Remainder(sum + w, Wraps(sum, m), r, m);
    } else {
      Remainder(sum + w, Wraps(sum, m) + 1, r - range, m);
      Remainder(r, 1, r - range, m);
    }
  }

  method StoreWord(out: array<byte>, len: nat, w: word, little: bool)
    requires 4 <= len <= out.Length
    modifies out
    ensures out[..len] == WithCheck(old(out[..len]), w, little)
    ensures forall i :: len <= i < out.Length ==> out[i] == old(out[i])
  {
    out[2] := Stored(w, little).0;
    out[3] := Stored(w, little).1;
  }

  method SumWords(out: array<byte>, len: nat, m: Machine) returns (sum: nat)
    requires len <= out.Length && len % 2 == 0
    ensures sum == Wrapped(Sum(out[..len], m.little), m)
  {
    sum := 0;
    var summer := 0;
    while summer < len
      invariant summer <= len && summer % 2 == 0
      invariant sum == Wrapped(Sum(out[..summer], m.little), m)
    {
      assert out[..summer + 2][..summer] == out[..summer];
      var w := Word(out[summer], out[summer + 1], m.little);
      WrapStep(Sum(out[..summer], m.little), w, m);
      sum := Wrapped(sum + w, m);
      summer := summer + 2;
    }
  }

  method Checksum(out: array<byte>, len: nat, m: Machine)
    requires 4 <= len <= out.Length && len % 2 == 0
    modifies out
    ensures out[..len] == WithCheck(old(out[..len]), Check(Wrapped(Sum(old(out[..len]), m.little), m)), m.little)
    ensures forall i :: len <= i < out.Length ==> out[i] == old(out[i])
  {
    var sum := SumWords(out, len, m);
    sum := sum / 65536 + sum % 65536;
    sum := sum + sum / 65536;
    StoreWord(out, len, 65535 - sum % 65536, m.little);
  }

  // ---------- packets ----------

  datatype Header = Header(kind: byte, code: byte, checksum: word, echoSequence: word, echoId: word)

  function High(w: word): byte { (w / 256) as byte }

  function Low(w: word): byte { (w % 256) as byte }

  /** The sequence number comes before the identifier. */
  function HeaderBytes(h: Header): seq<byte> {
    [h.kind, h.code, High(h.checksum), Low(h.checksum),
     High(h.echoSequence), Low(h.echoSequence), High(h.echoId), Low(h.echoId)]
  }

  /** Each field in its place, the words with their high byte first. */
  lemma HeaderLayout(h: Header)
    ensures var bs := HeaderBytes(h);
            && |bs| == 8 && bs[0] == h.kind && bs[1] == h.code
            && 256 * bs[2] as int + bs[3] as int == h.checksum as int
            && 256 * bs[4] as int + bs[5] as int == h.echoSequence as int
            && 256 * bs[6] as int + bs[7] as int == h.echoId as int
  {
  }

  /** The bytes summed: the packet with no checksum, and what is behind it in the buffer. */
  function Unchecked(h: Header, msg: seq<byte>, rest: seq<byte>): seq<byte> {
    HeaderBytes(h.(checksum := 0)) + msg + rest
  }

  function Serialized(h: Header, msg: seq<byte>, rest: seq<byte>, m: Machine): seq<byte>
    requires Even(Unchecked(h, msg, rest))
  {
    var bytes := Unchecked(h, msg, rest);
    WithCheck(bytes, Check(Wrapped(Sum(bytes, m.little), m)), m.little)
  }

  lemma SerializedIsSound(h: Header, msg: seq<byte>, rest: seq<byte>, m: Machine)
    requires Even(Unchecked(h, msg, rest))
    ensures Sound(Serialized(h, msg, rest, m)) <==> TwoFoldsEnough(Sum(Unchecked(h, msg, rest), m.little), m)
  {
    ChecksumHolds(Unchecked(h, msg, rest), m);
  }

  /** What the receiver may rely on. */
  lemma ShortIsSound(h: Header, msg: seq<byte>, rest: seq<byte>, m: Machine)
    requires Even(Unchecked(h, msg, rest)) && |Unchecked(h, msg, rest)| <= Limit(m)
    ensures Sound(Serialized(h, msg, rest, m))
  {
    SerializedIsSound(h, msg, rest, m);
    ShortIsEnough(Unchecked(h, msg, rest), m);
  }

  function Be(high: byte, low: byte): word { high as int * 256 + low as int }

  /** The fields where a reader looks for them. */
  predicate Holds(bytes: seq<byte>, h: Header, msg: seq<byte>) {
    && |bytes| == |msg| + 8
    && bytes[0] == h.kind && bytes[1] == h.code
    && Be(bytes[4], bytes[5]) == h.echoSequence && Be(bytes[6], bytes[7]) == h.echoId
    && bytes[8..] == msg
  }

  lemma UncheckedHolds(h: Header, msg: seq<byte>, rest: seq<byte>)
    ensures Holds(Unchecked(h, msg, rest), h, msg + rest)
  {
    assert Unchecked(h, msg, rest) == HeaderBytes(h.(checksum := 0)) + (msg + rest);
  }

  lemma CheckLeavesFields(bytes: seq<byte>, h: Header, msg: seq<byte>, w: word, little: bool)
    requires Holds(bytes, h, msg)
    ensures Holds(WithCheck(bytes, w, little), h, msg)
  {
    assert WithCheck(bytes, w, little)[8..] == bytes[8..];
  }

  lemma SerializedHolds(h: Header, msg: seq<byte>, rest: seq<byte>, m: Machine)
    requires Even(Unchecked(h, msg, rest))
    ensures Holds(Serialized(h, msg, rest, m), h, msg + rest)
  {
    var bytes := Unchecked(h, msg, rest);
    UncheckedHolds(h, msg, rest);
    CheckLeavesFields(bytes, h, msg + rest, Check(Wrapped(Sum(bytes, m.little), m)), m.little);
  }

  /** The identifier and the sequence number where RFC 792 puts them in an echo message. */
  function Rfc792Echo(bytes: seq<byte>): (word, word)
    requires |bytes| >= 8
  {
    (Be(bytes[4], bytes[5]), Be(bytes[6], bytes[7]))
  }

  /** A reader of RFC 792 finds both numbers exactly when they are the same. */
  lemma Rfc792Reads(h: Header, msg: seq<byte>, rest: seq<byte>, m: Machine)
    requires Even(Unchecked(h, msg, rest))
    ensures Rfc792Echo(Serialized(h, msg, rest, m)) == (h.echoId, h.echoSequence) <==> h.echoId == h.echoSequence
  {
    SerializedHolds(h, msg, rest, m);
  }

  /** Echo request 1 of identifier 2 is request 2 of identifier 1 to such a reader. */
  lemma Rfc792Differs(m: Machine)
    ensures var h := Header(8, 0, 0, 1, 2);
            Even(Unchecked(h, [], [])) && Rfc792Echo(Serialized(h, [], [], m)) == (1, 2)
  {
    SerializedHolds(Header(8, 0, 0, 1, 2), [], [], m);
  }

  /** Throws when the buffer is full. */
  class BufferPutter {
    const bytes: array<byte>
    const len: nat
    var cur: nat

    ghost predicate Valid()
      reads this
    {
      cur <= len <= bytes.Length
    }

    constructor (bytes: array<byte>, len: nat)
      requires len <= bytes.Length
      ensures Valid() && this.bytes == bytes && this.len == len && cur == 0
    {
      this.bytes, this.len, cur := bytes, len, 0;
    }

    method PutByte(b: byte) returns (ok: bool)
      requires Valid()
      modifies this, bytes
      ensures Valid() && (ok <==> old(cur) < len)
      ensures ok ==> cur == old(cur) + 1 && bytes[..cur] == old(bytes[..cur]) + [b]
      ensures !ok ==> cur == old(cur) && bytes[..] == old(bytes[..])
      ensures forall i :: cur <= i < bytes.Length ==> bytes[i] == old(bytes[i])
    {
      if cur == len {
        return false;
      }
      bytes[cur] := b;
      cur := cur + 1;
      ok := true;
    }

    method PutBytes(data: seq<byte>) returns (ok: bool)
      requires Valid()
      modifies this, bytes
      ensures Valid() && (ok <==> old(cur) + |data| <= len)
      ensures ok ==> cur == old(cur) + |data| && bytes[..cur] == old(bytes[..cur]) + data
      ensures forall i :: cur <= i < bytes.Length ==> bytes[i] == old(bytes[i])
    {
      for i := 0 to |data|
        invariant Valid() && cur == old(cur) + i
        invariant bytes[..cur] == old(bytes[..cur]) + data[..i]
        invariant forall i :: cur <= i < bytes.Length ==> bytes[i] == old(bytes[i])
      {
        ok := PutByte(data[i]);
        if !ok {
          return;
        }
        assert data[..i + 1] == data[..i] + [data[i]];
      }
      assert data[..|data|] == data;
      ok := true;
    }

    method PutInt16be(w: word) returns (ok: bool)
      requires Valid()
      modifies this, bytes
      ensures Valid() && (ok <==> old(cur) + 2 <= len)
      ensures cur >= old(cur)
      ensures ok ==> cur == old(cur) + 2 && bytes[..cur] == old(bytes[..cur]) + [High(w), Low(w)]
      ensures forall i :: cur <= i < bytes.Length ==> bytes[i] == old(bytes[i])
    {
      ok := PutByte(High(w));
      if ok {
        ok := PutByte(Low(w));
      }
    }

    method PutHeader(h: Header) returns (ok: bool)
      requires Valid()
      modifies this, bytes
      ensures Valid() && (ok <==> old(cur) + 8 <= len)
      ensures ok ==> cur == old(cur) + 8 && bytes[..cur] == old(bytes[..cur]) + HeaderBytes(h)
      ensures forall i :: cur <= i < bytes.Length ==> bytes[i] == old(bytes[i])
    {
      ok := PutByte(h.kind);
      if ok { ok := PutByte(h.code); }
      if ok { ok := PutInt16be(h.checksum); }
      if ok { ok := PutInt16be(h.echoSequence); }
      if ok { ok := PutInt16be(h.echoId); }
    }
  }

  /** Throws when the bytes are used up. */
  class BufferGetter {
    const blob: seq<byte>
    var cursor: nat

    constructor (blob: seq<byte>)
      ensures this.blob == blob && cursor == 0
    {
      this.blob, cursor := blob, 0;
    }

    method GetByte() returns (ok: bool, b: byte)
      requires cursor <= |blob|
      modifies this
      ensures ok <==> old(cursor) < |blob|
      ensures ok ==> cursor == old(cursor) + 1 && b == blob[old(cursor)]
      ensures !ok ==> cursor == old(cursor)
    {
      if cursor >= |blob| {
        return false, 0;
      }
      b := blob[cursor];
      cursor := cursor + 1;
      ok := true;
    }

    method GetInt16be() returns (ok: bool, w: word)
      requires cursor <= |blob|
      modifies this
      ensures ok <==> old(cursor) + 2 <= |blob|
      ensures ok ==> cursor == old(cursor) + 2 && w == Be(blob[old(cursor)], blob[old(cursor) + 1])
      ensures cursor <= |blob|
    {
      w := 0;
      var high, low;
      ok, high := GetByte();
      if ok {
        ok, low := GetByte();
        if ok {
          w := Be(high, low);
        }
      }
    }
  }

  class ICMPPacket {
    var hdr: Header
    var msg: seq<byte>

    constructor (hdr: Header, msg: seq<byte>)
      ensures this.hdr == hdr && this.msg == msg
    {
      this.hdr, this.msg := hdr, msg;
    }

    function SerializeSize(): nat
      reads this
    {
      |msg| + 8
    }

    /** -1 for a buffer too short; else the packet, and a checksum over the whole buffer. */
    method Serialize(out: array<byte>, len: nat, m: Machine) returns (r: int)
      requires len <= out.Length && len % 2 == 0
      modifies out
      ensures r == if len < SerializeSize() then -1 else 0
      ensures r == -1 ==> out[..] == old(out[..])
      ensures r == 0 ==> Even(Unchecked(hdr, msg, old(out[SerializeSize()..len])))
      ensures r == 0 ==> out[..len] == Serialized(hdr, msg, old(out[SerializeSize()..len]), m)
    {
      if len < SerializeSize() {
        return -1;
      }
      var lhdr := hdr.(checksum := 0);
      var putter := new BufferPutter(out, len);
      var ok := putter.PutHeader(lhdr);
      ok := putter.PutBytes(msg);
      ghost var n, rest := SerializeSize(), old(out[SerializeSize()..len]);
      assert out[n..len] == rest;
      assert out[..len] == out[..n] + out[n..len] == Unchecked(hdr, msg, rest);
      Checksum(out, len, m);
      r := 0;
    }

    /** The checksum in the bytes is skipped. A message that is too short throws; the fields read
        until then are set. */
    method Deserialize(message: seq<byte>) returns (ok: bool)
      modifies this
      ensures ok <==> |message| >= 8
      ensures ok ==> hdr == Header(message[0], message[1], old(hdr).checksum,
                                   Be(message[4], message[5]), Be(message[6], message[7]))
      ensures ok ==> msg == message[8..]
      ensures !ok ==> msg == old(msg) && hdr.echoId == old(hdr).echoId
    {
      var getter := new BufferGetter(message);
      var b, w;
      ok, b := getter.GetByte();
      if !ok { return; }
      hdr := hdr.(kind := b);
      ok, b := getter.GetByte();
      if !ok { return; }
      hdr := hdr.(code := b);
      ok, w := getter.GetInt16be();
      if !ok { return; }
      ok, w := getter.GetInt16be();
      if !ok { return; }
      hdr := hdr.(echoSequence := w);
      ok, w := getter.GetInt16be();
      if !ok { return; }
      hdr := hdr.(echoId := w);
      msg := message[getter.cursor..];
    }
  }

  lemma WireHolds(h: Header, msg: seq<byte>, m: Machine)
    requires Even(Unchecked(h, msg, []))
    ensures Holds(Serialized(h, msg, [], m), h, msg)
  {
    SerializedHolds(h, msg, [], m);
    assert msg + [] == msg;
  }

  /** A packet in a buffer of its own size: every field in its place, and a sound checksum unless it
      is too long. */
  method Send(packet: ICMPPacket, m: Machine) returns (wire: seq<byte>)
    requires Even(packet.msg)
    ensures Even(wire) && Holds(wire, packet.hdr, packet.msg)
    ensures |wire| <= Limit(m) ==> Sound(wire)
  {
    var len := packet.SerializeSize();
    var dst := new byte[len];
    assert dst[len..len] == [];
    var r := packet.Serialize(dst, len, m);
    wire := dst[..len];
    WireHolds(packet.hdr, packet.msg, m);
    if len <= Limit(m) {
      ShortIsSound(packet.hdr, packet.msg, [], m);
    }
  }

  /** What arrives is what was sent. */
  method SendAndReceive(packet: ICMPPacket, received: ICMPPacket, m: Machine)
    requires packet != received && Even(packet.msg)
    modifies received
    ensures received.msg == packet.msg
    ensures received.hdr == packet.hdr.(checksum := old(received.hdr).checksum)
  {
    var wire := Send(packet, m);
    var ok := received.Deserialize(wire);
  }
}
