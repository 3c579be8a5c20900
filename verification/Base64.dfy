/** libb64's streaming base64 encoder and decoder, which stop and resume at any byte, and the
    Base64Putter that feeds the encoder in blocks.  Bytes and characters are 8-bit words, so
    shifts drop what a C char drops; char is signed, as the decoder's tests for negative need. */
module Base64 {
  import Common

  /** An 8-bit word. */
  type octet = bv8

  const NEWLINE: octet := 10
  const PAD: octet := 61
  const BRACE: octet := 123
  const GROUPS_PER_LINE: nat := 18

  // ---------- the alphabet ----------

  /** The character of a six-bit value; larger values give the padding character. */
  function EncodeValue(v: octet): (c: octet)
    ensures c != 0
  {
    if v > 63 then PAD
    else if v < 26 then v + 65
    else if v < 52 then v + 71
    else if v < 62 then v - 4
    else if v == 62 then 43
    else 47
  }

  predicate Negative(v: octet) {
    v >= 128
  }

  /** The value of a character: negative outside the alphabet.  The bound test lets index 80, one
      past the table, through: the character 123 reads the byte that follows the table. */
  function DecodeValue(c: octet, beyond: octet): octet {
    var i := c - 43;
    if Negative(i) || i > 80 then 255
    else if i == 80 then beyond
    else if i == 0 then 62
    else if i == 4 then 63
    else if 5 <= i <= 14 then i + 47
    else if i == 18 then 254
    else if 22 <= i <= 47 then i - 22
    else if 54 <= i <= 79 then i - 28
    else 255
  }

  predicate InAlphabet(c: octet) {
    || 65 <= c <= 90 || 97 <= c <= 122 || 48 <= c <= 57 || c == 43 || c == 47
  }

  /** Outside the alphabet the table says minus two for the pad and minus one for all else, and there
      is no character for a value beyond it. */
  lemma OutsideTheTables(v: octet, c: octet, beyond: octet)
    ensures Negative(c) <==> c as int >= 128
    ensures !InAlphabet(c) && c != BRACE ==> DecodeValue(c, beyond) == if c == 61 then 254 else 255
    ensures DecodeValue(123, beyond) == beyond
    ensures 63 < v < 128 ==> EncodeValue(v) == 61
  {
  }

  /** The two tables are inverse to each other on the alphabet. */
  lemma ValuesInverse(v: octet, c: octet, beyond: octet)
    ensures v < 64 ==> InAlphabet(EncodeValue(v)) && DecodeValue(EncodeValue(v), beyond) == v
    ensures InAlphabet(c) ==> DecodeValue(c, beyond) < 64 && EncodeValue(DecodeValue(c, beyond)) == c
    ensures !InAlphabet(c) && c != BRACE ==> Negative(DecodeValue(c, beyond))
  {
  }

  // ---------- the encoder, one byte at a time ----------

  datatype EncodeStep = StepA | StepB | StepC

  /** The encoder's state as a value. */
  datatype Enc = Enc(step: EncodeStep, result: octet, stepcount: nat)

  const ENC_START := Enc(StepA, 0, 0)

  /** The number of groups on the line after one more, and the line break that may follow it. */
  function NextCount(groups: nat): nat {
    if groups + 1 == GROUPS_PER_LINE then 0 else groups + 1
  }

  function LineBreak(groups: nat): seq<octet> {
    if groups + 1 == GROUPS_PER_LINE then [NEWLINE] else []
  }

  function EncByte(s: Enc, fragment: octet): (Enc, seq<octet>) {
    match s.step
    case StepA =>
      (Enc(StepB, (fragment & 0x03) << 4, s.stepcount), [EncodeValue((fragment & 0xFC) >> 2)])
    case StepB =>
      (Enc(StepC, (fragment & 0x0F) << 2, s.stepcount), [EncodeValue(s.result | ((fragment & 0xF0) >> 4))])
    case StepC =>
      (Enc(StepA, fragment & 0x3F, NextCount(s.stepcount)),
       [EncodeValue(s.result | ((fragment & 0xC0) >> 6)), EncodeValue(fragment & 0x3F)] + LineBreak(s.stepcount))
  }

  function EncRun(s: Enc, bytes: seq<octet>): (Enc, seq<octet>) {
    if bytes == [] then (s, [])
    else
      var (t, out) := EncRun(s, bytes[..|bytes| - 1]);
      var (u, more) := EncByte(t, bytes[|bytes| - 1]);
      (u, out + more)
  }

  function EncEnd(s: Enc): seq<octet> {
    match s.step
    case StepA => [NEWLINE]
    case StepB => [EncodeValue(s.result), PAD, PAD, NEWLINE]
    case StepC => [EncodeValue(s.result), PAD, NEWLINE]
  }

  /** Everything the encoder writes for one text. */
  function EncodeText(bytes: seq<octet>): seq<octet> {
    EncRun(ENC_START, bytes).1 + EncEnd(EncRun(ENC_START, bytes).0)
  }

  /** Cutting the input anywhere makes no difference. */
  lemma {:induction false} EncRunConcat(s: Enc, a: seq<octet>, b: seq<octet>)
    ensures var (t, out) := EncRun(s, a);
            EncRun(s, a + b) == (EncRun(t, b).0, out + EncRun(t, b).1)
  {
    var (t, out) := EncRun(s, a);
    if b == [] {
      assert a + b == a && out + [] == out;
    } else {
      EncRunConcat(s, a, b[..|b| - 1]);
      assert (a + b)[..|a + b| - 1] == a + b[..|b| - 1];
      var (u, more) := EncRun(t, b[..|b| - 1]);
      Common.Assoc(out, more, EncByte(u, b[|b| - 1]).1);
    }
  }

  lemma {:induction false} EncRunGrows(s: Enc, bytes: seq<octet>, k: nat)
    requires k <= |bytes|
    ensures EncRun(s, bytes[..k]).1 <= EncRun(s, bytes).1
  {
    EncRunConcat(s, bytes[..k], bytes[k..]);
    assert bytes[..k] + bytes[k..] == bytes;
  }

  // ---------- the encoder's text as a whole ----------

  /** The 24-bit group that three bytes form, as four six-bit values. */
  function SixBits(b0: octet, b1: octet, b2: octet): (r: (octet, octet, octet, octet))
    ensures r.0 < 64 && r.1 < 64 && r.2 < 64 && r.3 < 64
  {
    var group := (b0 as bv24 << 16) | (b1 as bv24 << 8) | b2 as bv24;
    ((group >> 18) as octet, ((group >> 12) & 0x3F) as octet, ((group >> 6) & 0x3F) as octet, (group & 0x3F) as octet)
  }

  function Quad(b0: octet, b1: octet, b2: octet): seq<octet> {
    var v := SixBits(b0, b1, b2);
    [EncodeValue(v.0), EncodeValue(v.1), EncodeValue(v.2), EncodeValue(v.3)]
  }

  /** Missing bytes count as zero; a character that holds no bit of the input is the pad. */
  function Unbroken(bytes: seq<octet>): seq<octet> {
    if |bytes| >= 3 then Quad(bytes[0], bytes[1], bytes[2]) + Unbroken(bytes[3..])
    else if |bytes| == 2 then Quad(bytes[0], bytes[1], 0)[..3] + [PAD]
    else if |bytes| == 1 then Quad(bytes[0], 0, 0)[..2] + [PAD, PAD]
    else []
  }

  /** The text with a line break after every 18 full groups and one at the end; groups is the
      number of full groups already on the line. */
  function Lines(bytes: seq<octet>, groups: nat): seq<octet>
    decreases |bytes|
  {
    if |bytes| >= 3 then
      Quad(bytes[0], bytes[1], bytes[2]) + LineBreak(groups) + Lines(bytes[3..], NextCount(groups))
    else Unbroken(bytes) + [NEWLINE]
  }

  lemma GroupBits(b0: octet, b1: octet, b2: octet)
    ensures SixBits(b0, b1, b2) ==
            ((b0 & 0xFC) >> 2, ((b0 & 0x03) << 4) | ((b1 & 0xF0) >> 4),
             ((b1 & 0x0F) << 2) | ((b2 & 0xC0) >> 6), b2 & 0x3F)
  {
  }

  lemma EncRunOne(s: Enc, b: octet)
    ensures EncRun(s, [b]) == EncByte(s, b)
  {
    assert [b][..0] == [];
    assert [] + EncByte(s, b).1 == EncByte(s, b).1;
  }

  lemma EncRunThree(s: Enc, b0: octet, b1: octet, b2: octet)
    ensures var (s1, o1) := EncByte(s, b0);
            var (s2, o2) := EncByte(s1, b1);
            var (s3, o3) := EncByte(s2, b2);
            EncRun(s, [b0, b1, b2]) == (s3, o1 + o2 + o3)
  {
    var s1 := EncByte(s, b0).0;
    var s2 := EncByte(s1, b1).0;
    EncRunOne(s, b0);
    EncRunOne(s1, b1);
    EncRunOne(s2, b2);
    EncRunConcat(s, [b0], [b1]);
    EncRunConcat(s, [b0, b1], [b2]);
    assert [b0] + [b1] == [b0, b1] && [b0, b1] + [b2] == [b0, b1, b2];
  }

  lemma Joined(a: octet, b: octet, c: octet, d: octet, tail: seq<octet>)
    ensures [a] + [b] + ([c, d] + tail) == [a, b, c, d] + tail
  {
  }

  lemma GroupRun(s: Enc, b0: octet, b1: octet, b2: octet)
    requires s.step == StepA
    ensures EncRun(s, [b0, b1, b2]) ==
            (Enc(StepA, b2 & 0x3F, NextCount(s.stepcount)), Quad(b0, b1, b2) + LineBreak(s.stepcount))
  {
    EncRunThree(s, b0, b1, b2);
    GroupBits(b0, b1, b2);
    var v := SixBits(b0, b1, b2);
    Joined(EncodeValue(v.0), EncodeValue(v.1), EncodeValue(v.2), EncodeValue(v.3), LineBreak(s.stepcount));
  }

  /** The encoder writes the text of the RFC, broken into lines. */
  lemma {:induction false} EncodeIsLines(s: Enc, bytes: seq<octet>)
    requires s.step == StepA
    ensures EncRun(s, bytes).1 + EncEnd(EncRun(s, bytes).0) == Lines(bytes, s.stepcount)
    decreases |bytes|
  {
    if |bytes| >= 3 {
      var three, rest := [bytes[0], bytes[1], bytes[2]], bytes[3..];
      assert bytes == three + rest;
      GroupRun(s, bytes[0], bytes[1], bytes[2]);
      EncRunConcat(s, three, rest);
      EncodeIsLines(EncRun(s, three).0, rest);
      Common.Assoc(EncRun(s, three).1, EncRun(EncRun(s, three).0, rest).1, EncEnd(EncRun(s, bytes).0));
    } else {
      EncodeTail(s, bytes);
    }
  }

  lemma EncodeTail(s: Enc, bytes: seq<octet>)
    requires s.step == StepA && |bytes| < 3
    ensures EncRun(s, bytes).1 + EncEnd(EncRun(s, bytes).0) == Unbroken(bytes) + [NEWLINE]
  {
    if |bytes| == 2 {
      EncRunTwo(s, bytes[0], bytes[1]);
      assert bytes == [bytes[0], bytes[1]];
      GroupBits(bytes[0], bytes[1], 0);
      var v := SixBits(bytes[0], bytes[1], 0);
      PaddedTwo(EncodeValue(v.0), EncodeValue(v.1), EncodeValue(v.2), EncodeValue(v.3));
    } else if |bytes| == 1 {
      assert bytes == [bytes[0]];
      EncRunOne(s, bytes[0]);
      GroupBits(bytes[0], 0, 0);
      var v := SixBits(bytes[0], 0, 0);
      PaddedOne(EncodeValue(v.0), EncodeValue(v.1), EncodeValue(v.2), EncodeValue(v.3));
    }
  }

  lemma EncRunTwo(s: Enc, b0: octet, b1: octet)
    ensures var (s1, o1) := EncByte(s, b0);
            var (s2, o2) := EncByte(s1, b1);
            EncRun(s, [b0, b1]) == (s2, o1 + o2)
  {
    EncRunOne(s, b0);
    EncRunOne(EncByte(s, b0).0, b1);
    EncRunConcat(s, [b0], [b1]);
    assert [b0] + [b1] == [b0, b1];
  }

  lemma PaddedTwo(a: octet, b: octet, c: octet, d: octet)
    ensures [a] + [b] + [c, PAD, NEWLINE] == [a, b, c, d][..3] + [PAD] + [NEWLINE]
  {
  }

  lemma PaddedOne(a: octet, b: octet, c: octet, d: octet)
    ensures [a] + [b, PAD, PAD, NEWLINE] == [a, b, c, d][..2] + [PAD, PAD] + [NEWLINE]
  {
  }

  function StripNewlines(cs: seq<octet>): seq<octet> {
    if cs == [] then []
    else (if cs[0] == NEWLINE then [] else [cs[0]]) + StripNewlines(cs[1..])
  }

  lemma {:induction false} StripConcat(a: seq<octet>, b: seq<octet>)
    ensures StripNewlines(a + b) == StripNewlines(a) + StripNewlines(b)
  {
    if a == [] {
      assert a + b == b;
    } else {
      StripConcat(a[1..], b);
      assert (a + b)[0] == a[0] && (a + b)[1..] == a[1..] + b;
      Common.Assoc(if a[0] == NEWLINE then [] else [a[0]], StripNewlines(a[1..]), StripNewlines(b));
    }
  }

  lemma {:induction false} StripNothing(cs: seq<octet>)
    requires NEWLINE !in cs
    ensures StripNewlines(cs) == cs
  {
    if cs != [] {
      assert cs[0] != NEWLINE;
      StripNothing(cs[1..]);
    }
  }

  lemma StripGroup(quad: seq<octet>, groups: nat)
    requires NEWLINE !in quad
    ensures StripNewlines(quad + LineBreak(groups)) == quad
  {
    StripConcat(quad, LineBreak(groups));
    StripNothing(quad);
    assert quad + StripNewlines(LineBreak(groups)) == quad;
  }

  /** The line breaks are the only difference to the text without them. */
  lemma {:induction false} LinesAreUnbroken(bytes: seq<octet>, groups: nat)
    ensures StripNewlines(Lines(bytes, groups)) == Unbroken(bytes)
    decreases |bytes|
  {
    if |bytes| >= 3 {
      var quad, rest := Quad(bytes[0], bytes[1], bytes[2]), Lines(bytes[3..], NextCount(groups));
      LinesAreUnbroken(bytes[3..], NextCount(groups));
      StripConcat(quad + LineBreak(groups), rest);
      StripGroup(quad, groups);
    } else {
      StripConcat(Unbroken(bytes), [NEWLINE]);
      StripNothing(Unbroken(bytes));
      assert Unbroken(bytes) + StripNewlines([NEWLINE]) == Unbroken(bytes);
    }
  }

  lemma ShortRest(quad: seq<octet>, rest: seq<octet>, tail: seq<octet>)
    ensures quad + [] + (rest + tail) == (quad + rest) + tail
  {
  }

  lemma SplitLine(bytes: seq<octet>, n: nat)
    requires 3 <= n <= |bytes|
    ensures bytes[..n][3..] == bytes[3..][..n - 3] && bytes[n..] == bytes[3..][n - 3..]
  {
  }

  lemma UnbrokenFirst(bytes: seq<octet>, n: nat)
    requires 3 <= n <= |bytes|
    ensures Unbroken(bytes[..n]) == Quad(bytes[0], bytes[1], bytes[2]) + Unbroken(bytes[3..][..n - 3])
  {
    SplitLine(bytes, n);
  }

  lemma LinesFirst(bytes: seq<octet>, groups: nat)
    requires |bytes| >= 3 && groups < 17
    ensures Lines(bytes, groups) == Quad(bytes[0], bytes[1], bytes[2]) + Lines(bytes[3..], groups + 1)
  {
    var quad := Quad(bytes[0], bytes[1], bytes[2]);
    assert quad + [] == quad;
  }

  lemma LineEnds(bytes: seq<octet>)
    requires |bytes| >= 3
    ensures Lines(bytes, 17) == Quad(bytes[0], bytes[1], bytes[2]) + [NEWLINE] + Lines(bytes[3..], 0)
  {
  }

  lemma UnbrokenThree(bytes: seq<octet>)
    requires |bytes| >= 3
    ensures Unbroken(bytes[..3]) == Quad(bytes[0], bytes[1], bytes[2])
  {
    var quad := Quad(bytes[0], bytes[1], bytes[2]);
    assert bytes[..3][3..] == [] && quad + [] == quad;
  }

  lemma LineJoined(text: seq<octet>, quad: seq<octet>, rest: seq<octet>, line: seq<octet>, mark: seq<octet>,
                   more: seq<octet>, whole: seq<octet>)
    requires text == quad + rest && rest == line + mark + more && whole == quad + line
    ensures text == whole + mark + more
  {
  }

  /** A line from here on, n bytes, and the lines behind it. */
  predicate LineOf(bytes: seq<octet>, groups: nat, n: nat)
    requires n <= |bytes|
  {
    Lines(bytes, groups) == Unbroken(bytes[..n]) + [NEWLINE] + Lines(bytes[n..], 0)
  }

  lemma OneMoreGroup(bytes: seq<octet>, groups: nat, n: nat)
    requires groups < 17 && 3 <= n <= |bytes| && LineOf(bytes[3..], groups + 1, n - 3)
    ensures LineOf(bytes, groups, n)
  {
    LinesFirst(bytes, groups);
    UnbrokenFirst(bytes, n);
    SplitLine(bytes, n);
    LineJoined(Lines(bytes, groups), Quad(bytes[0], bytes[1], bytes[2]), Lines(bytes[3..], groups + 1),
               Unbroken(bytes[3..][..n - 3]), [NEWLINE], Lines(bytes[n..], 0), Unbroken(bytes[..n]));
  }

  /** With room for the groups of n bytes on the line. */
  lemma {:induction false} RestOfLine(bytes: seq<octet>, groups: nat, n: nat)
    requires groups <= 17 && n == 54 - 3 * groups && n <= |bytes|
    ensures LineOf(bytes, groups, n)
    decreases n
  {
    if groups == 17 {
      LineEnds(bytes);
      UnbrokenThree(bytes);
    } else {
      RestOfLine(bytes[3..], groups + 1, n - 3);
      OneMoreGroup(bytes, groups, n);
    }
  }

  lemma {:induction false} LastLine(bytes: seq<octet>, room: nat)
    requires 0 < room <= 18 && |bytes| < 3 * room
    ensures Lines(bytes, 18 - room) == Unbroken(bytes) + [NEWLINE]
    decreases room
  {
    if |bytes| >= 3 {
      LastLine(bytes[3..], room - 1);
      ShortRest(Quad(bytes[0], bytes[1], bytes[2]), Unbroken(bytes[3..]), [NEWLINE]);
    }
  }

  // ---------- the reference: section 4 of RFC 4648, and the line breaks ----------

  /** Table 1. */
  const ALPHABET := UPPER + LOWER + DIGITS + "+/"

  const UPPER := "ABCDEFGHIJKLMNOPQRSTUVWXYZ"
  const LOWER := "abcdefghijklmnopqrstuvwxyz"
  const DIGITS := "0123456789"

  lemma LettersInOrder(v: nat)
    ensures |UPPER| == |LOWER| == 26 && |DIGITS| == 10
    ensures v < 26 ==> UPPER[v] as int == v + 65 && LOWER[v] as int == v + 97
    ensures v < 10 ==> DIGITS[v] as int == v + 48
  {
  }

  lemma AlphabetInOrder(v: nat)
    requires v < 64
    ensures |ALPHABET| == 64
    ensures ALPHABET[v] as int ==
      if v < 26 then v + 65 else if v < 52 then v + 71 else if v < 62 then v - 4 else if v == 62 then 43 else 47
  {
    var start, middle, end := UPPER, UPPER + LOWER, UPPER + LOWER + DIGITS;
    LettersInOrder(if v < 26 then v else if v < 52 then v - 26 else if v < 62 then v - 52 else 0);
    assert |start| == 26 && |middle| == 52 && |end| == 62;
    assert ALPHABET == end + "+/";
  }

  /** The character of a six-bit value, and the pad, as octets. */
  function Letter(v: octet): octet
    requires v < 64
  {
    AlphabetInOrder(v as nat);
    ALPHABET[v as nat] as int as octet
  }

  lemma OffsetsAreExact(v: octet)
    ensures v < 26 ==> (v + 65) as int == v as int + 65
    ensures v < 52 ==> (v + 71) as int == v as int + 71
    ensures 52 <= v < 62 ==> (v - 4) as int == v as int - 4
  {
  }

  lemma SameOrder(v: octet, k: octet)
    ensures v < k <==> v as int < k as int
  {
  }

  lemma EncodeValueAsNumber(v: octet)
    requires v < 64
    ensures EncodeValue(v) as int ==
      var n := v as int;
      if n < 26 then n + 65 else if n < 52 then n + 71 else if n < 62 then n - 4 else if n == 62 then 43 else 47
  {
    OffsetsAreExact(v);
    SameOrder(v, 26);
    SameOrder(v, 52);
    SameOrder(v, 62);
    SameOrder(62, v);
  }

  lemma NumberAndBack(c: octet)
    ensures c as int as octet == c
  {
  }

  /** The encoder's table is that of the RFC. */
  lemma EncodeValueIsLetter(v: octet)
    requires v < 64
    ensures EncodeValue(v) == Letter(v)
  {
    AlphabetInOrder(v as nat);
    EncodeValueAsNumber(v);
    NumberAndBack(EncodeValue(v));
  }

  function RfcQuad(b0: octet, b1: octet, b2: octet): seq<octet> {
    var v := SixBits(b0, b1, b2);
    [Letter(v.0), Letter(v.1), Letter(v.2), Letter(v.3)]
  }

  lemma QuadIsRfc(b0: octet, b1: octet, b2: octet)
    ensures Quad(b0, b1, b2) == RfcQuad(b0, b1, b2)
  {
    var v := SixBits(b0, b1, b2);
    EncodeValueIsLetter(v.0);
    EncodeValueIsLetter(v.1);
    EncodeValueIsLetter(v.2);
    EncodeValueIsLetter(v.3);
  }

  /** Missing bytes count as zero; a character that holds no bit of the input is an equals sign. */
  function Rfc4648(bytes: seq<octet>): seq<octet> {
    if |bytes| >= 3 then RfcQuad(bytes[0], bytes[1], bytes[2]) + Rfc4648(bytes[3..])
    else if |bytes| == 2 then RfcQuad(bytes[0], bytes[1], 0)[..3] + [61]
    else if |bytes| == 1 then RfcQuad(bytes[0], 0, 0)[..2] + [61, 61]
    else []
  }

  /** That text with a newline, 10, behind every 54 bytes and another at the end. */
  function RfcLines(bytes: seq<octet>): seq<octet>
    decreases |bytes|
  {
    if |bytes| >= 54 then Rfc4648(bytes[..54]) + [10] + RfcLines(bytes[54..])
    else Rfc4648(bytes) + [10]
  }

  /** Without line breaks the encoder's text is that of the RFC. */
  lemma {:induction false} UnbrokenIsRfc(bytes: seq<octet>)
    ensures Unbroken(bytes) == Rfc4648(bytes)
    decreases |bytes|
  {
    if |bytes| >= 3 {
      QuadIsRfc(bytes[0], bytes[1], bytes[2]);
      UnbrokenIsRfc(bytes[3..]);
    } else if |bytes| == 2 {
      QuadIsRfc(bytes[0], bytes[1], 0);
    } else if |bytes| == 1 {
      QuadIsRfc(bytes[0], 0, 0);
    }
  }

  lemma LinesAreRfc(bytes: seq<octet>, groups: nat)
    ensures StripNewlines(Lines(bytes, groups)) == Rfc4648(bytes)
  {
    LinesAreUnbroken(bytes, groups);
    UnbrokenIsRfc(bytes);
  }

  lemma {:induction false} LinesAreRfcLines(bytes: seq<octet>)
    ensures Lines(bytes, 0) == RfcLines(bytes)
    decreases |bytes|
  {
    if |bytes| >= 54 {
      RestOfLine(bytes, 0, 54);
      LinesAreRfcLines(bytes[54..]);
      UnbrokenIsRfc(bytes[..54]);
    } else {
      LastLine(bytes, 18);
      UnbrokenIsRfc(bytes);
    }
  }

  /** What the encoder writes for a text, character by character. */
  lemma EncodeTextIsRfcLines(bytes: seq<octet>)
    ensures EncodeText(bytes) == RfcLines(bytes)
  {
    EncodeIsLines(ENC_START, bytes);
    LinesAreRfcLines(bytes);
  }

  // ---------- lines and lengths ----------

  /** No line is longer than 72 characters; used is the length of the line so far. */
  predicate ShortLines(cs: seq<octet>, used: nat) {
    cs == [] ||
    (if cs[0] == NEWLINE then ShortLines(cs[1..], 0)
     else used < 72 && ShortLines(cs[1..], used + 1))
  }

  lemma FourShort(a: octet, b: octet, c: octet, d: octet, rest: seq<octet>, used: nat)
    requires a != NEWLINE && b != NEWLINE && c != NEWLINE && d != NEWLINE
    requires used + 4 <= 72 && ShortLines(rest, used + 4)
    ensures ShortLines([a, b, c, d] + rest, used)
  {
    assert ([a, b, c, d] + rest)[1..] == [b, c, d] + rest;
    assert ([b, c, d] + rest)[1..] == [c, d] + rest;
    assert ([c, d] + rest)[1..] == [d] + rest;
    assert ([d] + rest)[1..] == rest;
    assert ShortLines([d] + rest, used + 3);
    assert ShortLines([c, d] + rest, used + 2);
    assert ShortLines([b, c, d] + rest, used + 1);
  }

  /** One more group fits on the line, and after the last one the line is broken. */
  lemma GroupShort(q: seq<octet>, groups: nat, rest: seq<octet>)
    requires |q| == 4 && NEWLINE !in q && groups < GROUPS_PER_LINE
    requires ShortLines(rest, 4 * NextCount(groups))
    ensures ShortLines(q + (LineBreak(groups) + rest), 4 * groups)
  {
    assert q == [q[0], q[1], q[2], q[3]];
    assert ([NEWLINE] + rest)[1..] == rest && [] + rest == rest;
    FourShort(q[0], q[1], q[2], q[3], LineBreak(groups) + rest, 4 * groups);
  }

  lemma {:induction false} LinesAreShort(bytes: seq<octet>, groups: nat)
    requires groups < GROUPS_PER_LINE
    ensures ShortLines(Lines(bytes, groups), 4 * groups)
    decreases |bytes|
  {
    if |bytes| >= 3 {
      var quad, rest := Quad(bytes[0], bytes[1], bytes[2]), Lines(bytes[3..], NextCount(groups));
      LinesAreShort(bytes[3..], NextCount(groups));
      GroupShort(quad, groups, rest);
      Common.Assoc(quad, LineBreak(groups), rest);
    } else {
      LastLineShort(Unbroken(bytes), 4 * groups);
    }
  }

  lemma LastLineShort(t: seq<octet>, used: nat)
    requires |t| == 0 || (|t| == 4 && NEWLINE !in t)
    requires used + 4 <= 72
    ensures ShortLines(t + [NEWLINE], used)
  {
    assert [NEWLINE][1..] == [];
    if t == [] {
      assert t + [NEWLINE] == [NEWLINE];
    } else {
      assert t == [t[0], t[1], t[2], t[3]];
      FourShort(t[0], t[1], t[2], t[3], [NEWLINE], used);
    }
  }

  /** n bytes become 4*ceil(n/3) characters, a line break for each 54 bytes, and the last one. */
  lemma {:induction false} LinesLength(bytes: seq<octet>, groups: nat)
    requires groups < GROUPS_PER_LINE
    ensures |Lines(bytes, groups)| == (|bytes| + 2) / 3 * 4 + (3 * groups + |bytes|) / 54 + 1
    decreases |bytes|
  {
    if |bytes| >= 3 {
      LinesLength(bytes[3..], NextCount(groups));
      assert (|bytes| - 3 + 2) / 3 == (|bytes| + 2) / 3 - 1;
      assert |bytes[3..]| == |bytes| - 3;
    }
  }

  lemma EncodedLength(bytes: seq<octet>)
    ensures |EncodeText(bytes)| == (|bytes| + 2) / 3 * 4 + |bytes| / 54 + 1
  {
    EncodeIsLines(ENC_START, bytes);
    LinesLength(bytes, 0);
  }

  // ---------- the decoder, one character at a time ----------

  datatype DecodeStep = Stepa | Stepb | Stepc | Stepd

  /** The decoder's state as a value; between groups the pending byte means nothing. */
  datatype Dec = Dec(step: DecodeStep, plainchar: octet)

  const DEC_START := Dec(Stepa, 0)

  function DecFragment(s: Dec, fragment: octet): (Dec, seq<octet>) {
    match s.step
    case Stepa => (Dec(Stepb, (fragment & 0x3F) << 2), [])
    case Stepb => (Dec(Stepc, (fragment & 0x0F) << 4), [s.plainchar | ((fragment & 0x30) >> 4)])
    case Stepc => (Dec(Stepd, (fragment & 0x03) << 6), [s.plainchar | ((fragment & 0x3C) >> 2)])
    case Stepd => (Dec(Stepa, 0), [s.plainchar | (fragment & 0x3F)])
  }

  function DecChar(s: Dec, c: octet, beyond: octet): (Dec, seq<octet>) {
    if Negative(DecodeValue(c, beyond)) then (s, []) else DecFragment(s, DecodeValue(c, beyond))
  }

  function DecRun(s: Dec, cs: seq<octet>, beyond: octet): (Dec, seq<octet>) {
    if cs == [] then (s, [])
    else
      var (t, out) := DecRun(s, cs[..|cs| - 1], beyond);
      var (u, more) := DecChar(t, cs[|cs| - 1], beyond);
      (u, out + more)
  }

  lemma {:induction false} DecRunConcat(s: Dec, a: seq<octet>, b: seq<octet>, beyond: octet)
    ensures var (t, out) := DecRun(s, a, beyond);
            DecRun(s, a + b, beyond) == (DecRun(t, b, beyond).0, out + DecRun(t, b, beyond).1)
  {
    var (t, out) := DecRun(s, a, beyond);
    if b == [] {
      assert a + b == a && out + [] == out;
    } else {
      DecRunConcat(s, a, b[..|b| - 1], beyond);
      assert (a + b)[..|a + b| - 1] == a + b[..|b| - 1];
      var (u, more) := DecRun(t, b[..|b| - 1], beyond);
      Common.Assoc(out, more, DecChar(u, b[|b| - 1], beyond).1);
    }
  }

  lemma DecRunOne(s: Dec, c: octet, beyond: octet)
    ensures DecRun(s, [c], beyond) == DecChar(s, c, beyond)
  {
    assert [c][..0] == [];
    assert [] + DecChar(s, c, beyond).1 == DecChar(s, c, beyond).1;
  }

  /** Characters outside the alphabet make no difference. */
  lemma {:induction false} DecRunNoise(s: Dec, cs: seq<octet>, beyond: octet)
    requires forall c :: c in cs ==> Negative(DecodeValue(c, beyond))
    ensures DecRun(s, cs, beyond) == (s, [])
  {
    if cs != [] {
      DecRunNoise(s, cs[..|cs| - 1], beyond);
      assert cs[|cs| - 1] in cs;
      assert [] + DecChar(s, cs[|cs| - 1], beyond).1 == [];
    }
  }

  lemma DecRunChain(s: Dec, c0: octet, c1: octet, c2: octet, c3: octet, beyond: octet)
    ensures var (s1, o1) := DecChar(s, c0, beyond);
            var (s2, o2) := DecChar(s1, c1, beyond);
            var (s3, o3) := DecChar(s2, c2, beyond);
            var (s4, o4) := DecChar(s3, c3, beyond);
            && DecRun(s, [c0, c1], beyond) == (s2, o1 + o2)
            && DecRun(s, [c0, c1, c2], beyond) == (s3, o1 + o2 + o3)
            && DecRun(s, [c0, c1, c2, c3], beyond) == (s4, o1 + o2 + o3 + o4)
  {
    var s1 := DecChar(s, c0, beyond).0;
    var s2 := DecChar(s1, c1, beyond).0;
    var s3 := DecChar(s2, c2, beyond).0;
    DecRunOne(s, c0, beyond);
    DecRunOne(s1, c1, beyond);
    DecRunOne(s2, c2, beyond);
    DecRunOne(s3, c3, beyond);
    DecRunConcat(s, [c0], [c1], beyond);
    DecRunConcat(s, [c0, c1], [c2], beyond);
    DecRunConcat(s, [c0, c1, c2], [c3], beyond);
    assert [c0] + [c1] == [c0, c1] && [c0, c1] + [c2] == [c0, c1, c2] && [c0, c1, c2] + [c3] == [c0, c1, c2, c3];
  }

  lemma DecValue(s: Dec, v: octet, beyond: octet)
    requires v < 64
    ensures DecChar(s, EncodeValue(v), beyond) == DecFragment(s, v)
  {
    ValuesInverse(v, 0, beyond);
  }

  function ThreeBytes(v0: octet, v1: octet, v2: octet, v3: octet): (octet, octet, octet) {
    ((v0 << 2) | ((v1 & 0x30) >> 4), ((v1 & 0x0F) << 4) | ((v2 & 0x3C) >> 2), ((v2 & 0x03) << 6) | v3)
  }

  /** Each of the four steps of a group. */
  lemma StepsOfGroup(s: Dec, v0: octet, v1: octet, v2: octet, v3: octet, beyond: octet)
    requires s.step == Stepa && v0 < 64 && v1 < 64 && v2 < 64 && v3 < 64
    ensures var b := ThreeBytes(v0, v1, v2, v3);
            var p1, p2, p3 := v0 << 2, (v1 & 0x0F) << 4, (v2 & 0x03) << 6;
            && DecChar(s, EncodeValue(v0), beyond) == (Dec(Stepb, p1), [])
            && DecChar(Dec(Stepb, p1), EncodeValue(v1), beyond) == (Dec(Stepc, p2), [b.0])
            && DecChar(Dec(Stepc, p2), EncodeValue(v2), beyond) == (Dec(Stepd, p3), [b.1])
            && DecChar(Dec(Stepd, p3), EncodeValue(v3), beyond) == (DEC_START, [b.2])
  {
    MaskedValues(v0, v1, v2, v3);
    DecValue(s, v0, beyond);
    DecValue(Dec(Stepb, v0 << 2), v1, beyond);
    DecValue(Dec(Stepc, (v1 & 0x0F) << 4), v2, beyond);
    DecValue(Dec(Stepd, (v2 & 0x03) << 6), v3, beyond);
  }

  lemma GroupOfSteps(s0: Dec, s1: Dec, s2: Dec, s3: Dec, s4: Dec, c0: octet, c1: octet, c2: octet, c3: octet,
                     x: octet, y: octet, z: octet, beyond: octet)
    requires DecChar(s0, c0, beyond) == (s1, []) && DecChar(s1, c1, beyond) == (s2, [x])
    requires DecChar(s2, c2, beyond) == (s3, [y]) && DecChar(s3, c3, beyond) == (s4, [z])
    ensures DecRun(s0, [c0, c1], beyond).1 == [x]
    ensures DecRun(s0, [c0, c1, c2], beyond).1 == [x, y]
    ensures DecRun(s0, [c0, c1, c2, c3], beyond) == (s4, [x, y, z])
  {
    DecRunChain(s0, c0, c1, c2, c3, beyond);
    Collected(x, y, z);
  }

  /** Four characters with values below 64, decoded from a group boundary. */
  lemma DecRunFour(s: Dec, v0: octet, v1: octet, v2: octet, v3: octet, beyond: octet)
    requires s.step == Stepa && v0 < 64 && v1 < 64 && v2 < 64 && v3 < 64
    ensures var cs := [EncodeValue(v0), EncodeValue(v1), EncodeValue(v2), EncodeValue(v3)];
            var b := ThreeBytes(v0, v1, v2, v3);
            && DecRun(s, cs[..2], beyond).1 == [b.0]
            && DecRun(s, cs[..3], beyond).1 == [b.0, b.1]
            && DecRun(s, cs, beyond) == (DEC_START, [b.0, b.1, b.2])
  {
    var c0, c1, c2, c3 := EncodeValue(v0), EncodeValue(v1), EncodeValue(v2), EncodeValue(v3);
    var b := ThreeBytes(v0, v1, v2, v3);
    StepsOfGroup(s, v0, v1, v2, v3, beyond);
    GroupOfSteps(s, Dec(Stepb, v0 << 2), Dec(Stepc, (v1 & 0x0F) << 4), Dec(Stepd, (v2 & 0x03) << 6), DEC_START,
                 c0, c1, c2, c3, b.0, b.1, b.2, beyond);
    FirstOf(c0, c1, c2, c3);
  }

  lemma FirstOf(c0: octet, c1: octet, c2: octet, c3: octet)
    ensures [c0, c1, c2, c3][..2] == [c0, c1] && [c0, c1, c2, c3][..3] == [c0, c1, c2]
  {
  }

  lemma Collected(a: octet, b: octet, c: octet)
    ensures [] + [a] == [a] && [a] + [b] == [a, b] && [a, b] + [c] == [a, b, c]
  {
  }

  lemma MaskedValues(v0: octet, v1: octet, v2: octet, v3: octet)
    requires v0 < 64 && v1 < 64 && v2 < 64 && v3 < 64
    ensures (v0 & 0x3F) << 2 == v0 << 2 && v3 & 0x3F == v3
  {
  }

  lemma SixBitsInverse(b0: octet, b1: octet, b2: octet)
    ensures var v := SixBits(b0, b1, b2);
            && v.0 < 64 && v.1 < 64 && v.2 < 64 && v.3 < 64
            && ThreeBytes(v.0, v.1, v.2, v.3) == (b0, b1, b2)
  {
    GroupBits(b0, b1, b2);
  }

  /** A full group, and the line break that may follow it. */
  lemma DecodeGroup(s: Dec, b0: octet, b1: octet, b2: octet, groups: nat, beyond: octet)
    requires s.step == Stepa
    ensures DecRun(s, Quad(b0, b1, b2) + LineBreak(groups), beyond) == (DEC_START, [b0, b1, b2])
  {
    var v := SixBits(b0, b1, b2);
    SixBitsInverse(b0, b1, b2);
    DecRunFour(s, v.0, v.1, v.2, v.3, beyond);
    DecRunNoise(DEC_START, LineBreak(groups), beyond);
    DecRunConcat(s, Quad(b0, b1, b2), LineBreak(groups), beyond);
    assert [b0, b1, b2] + [] == [b0, b1, b2];
  }

  /** Decoding what the encoder wrote, from any group boundary. */
  lemma {:induction false} DecodeLines(s: Dec, bytes: seq<octet>, groups: nat, beyond: octet)
    requires s.step == Stepa
    ensures DecRun(s, Lines(bytes, groups), beyond).1 == bytes
    decreases |bytes|
  {
    if |bytes| >= 3 {
      var three, rest := [bytes[0], bytes[1], bytes[2]], bytes[3..];
      var line := Quad(bytes[0], bytes[1], bytes[2]) + LineBreak(groups);
      DecodeGroup(s, bytes[0], bytes[1], bytes[2], groups, beyond);
      DecodeLines(DEC_START, rest, NextCount(groups), beyond);
      DecRunConcat(s, line, Lines(rest, NextCount(groups)), beyond);
      assert three + rest == bytes;
    } else {
      DecodeTail(s, bytes, beyond);
    }
  }

  /** The first characters of a group, then padding and the last line break. */
  lemma DecodePadded(s: Dec, chars: seq<octet>, noise: seq<octet>, beyond: octet)
    requires forall c :: c in noise ==> Negative(DecodeValue(c, beyond))
    ensures DecRun(s, chars + noise, beyond).1 == DecRun(s, chars, beyond).1
  {
    DecRunNoise(DecRun(s, chars, beyond).0, noise, beyond);
    DecRunConcat(s, chars, noise, beyond);
  }

  lemma DecodeOne(s: Dec, b0: octet, beyond: octet)
    requires s.step == Stepa
    ensures DecRun(s, Quad(b0, 0, 0)[..2], beyond).1 == [b0]
  {
    var v := SixBits(b0, 0, 0);
    SixBitsInverse(b0, 0, 0);
    DecRunFour(s, v.0, v.1, v.2, v.3, beyond);
  }

  lemma DecodeTwo(s: Dec, b0: octet, b1: octet, beyond: octet)
    requires s.step == Stepa
    ensures DecRun(s, Quad(b0, b1, 0)[..3], beyond).1 == [b0, b1]
  {
    var v := SixBits(b0, b1, 0);
    SixBitsInverse(b0, b1, 0);
    DecRunFour(s, v.0, v.1, v.2, v.3, beyond);
  }

  lemma DecodeTail(s: Dec, bytes: seq<octet>, beyond: octet)
    requires s.step == Stepa && |bytes| < 3
    ensures DecRun(s, Unbroken(bytes) + [NEWLINE], beyond).1 == bytes
  {
    if |bytes| == 2 {
      DecodeTwo(s, bytes[0], bytes[1], beyond);
      DecodePadded(s, Quad(bytes[0], bytes[1], 0)[..3], [PAD] + [NEWLINE], beyond);
      Common.Assoc(Quad(bytes[0], bytes[1], 0)[..3], [PAD], [NEWLINE]);
    } else if |bytes| == 1 {
      DecodeOne(s, bytes[0], beyond);
      DecodePadded(s, Quad(bytes[0], 0, 0)[..2], [PAD, PAD] + [NEWLINE], beyond);
      Common.Assoc(Quad(bytes[0], 0, 0)[..2], [PAD, PAD], [NEWLINE]);
    } else {
      DecodePadded(s, [], [NEWLINE], beyond);
    }
  }

  /** Decoding undoes encoding. */
  lemma RoundTrip(bytes: seq<octet>, beyond: octet)
    ensures DecRun(DEC_START, EncodeText(bytes), beyond).1 == bytes
  {
    EncodeIsLines(ENC_START, bytes);
    DecodeLines(DEC_START, bytes, 0, beyond);
  }

  function OnlyAlphabet(cs: seq<octet>): seq<octet> {
    if cs == [] then []
    else OnlyAlphabet(cs[..|cs| - 1]) + (if InAlphabet(cs[|cs| - 1]) then [cs[|cs| - 1]] else [])
  }

  /** The characters that the decoder does not skip. */
  predicate Used(c: octet, beyond: octet) {
    InAlphabet(c) || (c == BRACE && !Negative(beyond))
  }

  lemma UsedIsDecoded(c: octet, beyond: octet)
    ensures Used(c, beyond) <==> !Negative(DecodeValue(c, beyond))
  {
    ValuesInverse(0, c, beyond);
  }

  function Fragments(cs: seq<octet>, beyond: octet): nat {
    if cs == [] then 0
    else Fragments(cs[..|cs| - 1], beyond) + if Used(cs[|cs| - 1], beyond) then 1 else 0
  }

  /** Characters, and bytes, since the last group boundary. */
  function Into(s: Dec): nat {
    match s.step case Stepa => 0 case Stepb => 1 case Stepc => 2 case Stepd => 3
  }

  function Out(s: Dec): nat {
    if Into(s) == 0 then 0 else Into(s) - 1
  }

  lemma CharUsed(s: Dec, c: octet, beyond: octet)
    ensures var (t, out) := DecChar(s, c, beyond);
            var used := if Negative(DecodeValue(c, beyond)) then 0 else 1;
            3 * (used + Into(s)) == 4 * (|out| + Out(s) - Out(t)) + 3 * Into(t)
  {
  }

  /** Three bytes for four characters: step and output tell how many characters were used. */
  lemma {:induction false} FragmentsUsed(s: Dec, cs: seq<octet>, beyond: octet)
    ensures var (t, out) := DecRun(s, cs, beyond);
            3 * (Fragments(cs, beyond) + Into(s)) == 4 * (|out| + Out(s) - Out(t)) + 3 * Into(t)
  {
    if cs != [] {
      var before, c := cs[..|cs| - 1], cs[|cs| - 1];
      FragmentsUsed(s, before, beyond);
      UsedIsDecoded(c, beyond);
      CharUsed(DecRun(s, before, beyond).0, c, beyond);
    }
  }

  lemma FragmentsSnoc(cs: seq<octet>, c: octet, beyond: octet)
    ensures Fragments(cs + [c], beyond) == Fragments(cs, beyond) + if Used(c, beyond) then 1 else 0
  {
    assert (cs + [c])[..|cs|] == cs;
  }

  lemma OnlyAlphabetSnoc(cs: seq<octet>, c: octet)
    ensures OnlyAlphabet(cs + [c]) == if InAlphabet(c) then OnlyAlphabet(cs) + [c] else OnlyAlphabet(cs)
  {
    assert (cs + [c])[..|cs|] == cs;
    assert OnlyAlphabet(cs) + [] == OnlyAlphabet(cs);
  }

  /** One more character is used at least as often as it is kept, and more so if it is a brace. */
  lemma OneMoreUsed(cs: seq<octet>, c: octet, beyond: octet)
    ensures var kept := Fragments(OnlyAlphabet(cs + [c]), beyond) - Fragments(OnlyAlphabet(cs), beyond);
            var used := Fragments(cs + [c], beyond) - Fragments(cs, beyond);
            kept <= used && (!Negative(beyond) && c == BRACE ==> kept < used)
  {
    FragmentsSnoc(cs, c, beyond);
    OnlyAlphabetSnoc(cs, c);
    if InAlphabet(c) {
      FragmentsSnoc(OnlyAlphabet(cs), c, beyond);
    }
  }

  lemma {:induction false} BracesUsed(cs: seq<octet>, beyond: octet)
    ensures Fragments(OnlyAlphabet(cs), beyond) <= Fragments(cs, beyond)
    ensures !Negative(beyond) && BRACE in cs ==> Fragments(OnlyAlphabet(cs), beyond) < Fragments(cs, beyond)
  {
    if cs != [] {
      var before, c := cs[..|cs| - 1], cs[|cs| - 1];
      assert cs == before + [c];
      BracesUsed(before, beyond);
      OneMoreUsed(before, c, beyond);
    }
  }

  lemma {:induction false} NoiseSkipped(s: Dec, cs: seq<octet>, beyond: octet)
    requires Negative(beyond) || BRACE !in cs
    ensures DecRun(s, cs, beyond) == DecRun(s, OnlyAlphabet(cs), beyond)
  {
    if cs != [] {
      var before, c := cs[..|cs| - 1], cs[|cs| - 1];
      assert c in cs && cs == before + [c];
      NoiseSkipped(s, before, beyond);
      OnlyAlphabetSnoc(before, c);
      ValuesInverse(0, c, beyond);
      if InAlphabet(c) {
        DecRunConcat(s, OnlyAlphabet(before), [c], beyond);
        DecRunOne(DecRun(s, OnlyAlphabet(before), beyond).0, c, beyond);
      } else {
        assert DecRun(s, before, beyond).1 + [] == DecRun(s, before, beyond).1;
      }
    }
  }

  /** The decoder skips everything outside the alphabet, from any state, exactly when the byte
      behind its table is negative or the text has no brace. */
  lemma DecodeSkips(s: Dec, cs: seq<octet>, beyond: octet)
    ensures DecRun(s, cs, beyond) == DecRun(s, OnlyAlphabet(cs), beyond) <==> Negative(beyond) || BRACE !in cs
  {
    if Negative(beyond) || BRACE !in cs {
      NoiseSkipped(s, cs, beyond);
    } else {
      BracesUsed(cs, beyond);
      FragmentsUsed(s, cs, beyond);
      FragmentsUsed(s, OnlyAlphabet(cs), beyond);
    }
  }

  /** A brace alone, with a zero behind the table, starts a group. */
  lemma BraceIsTaken()
    ensures DecRun(DEC_START, [BRACE], 0) == (Dec(Stepb, 0), [])
  {
    DecRunOne(DEC_START, BRACE, 0);
  }
}
