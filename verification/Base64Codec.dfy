/** The C routines of libb64 over their buffers and saved states, and the Base64Putter, each
    against the encoder and decoder of module Base64. */
module Base64Codec {
  import opened Base64
  import Common

  class EncodeState {
    var step: EncodeStep
    var result: octet
    var stepcount: nat

    constructor ()
      ensures View() == ENC_START
    {
      step, result, stepcount := StepA, 0, 0;
    }

    ghost function View(): Enc
      reads this
    {
      Enc(step, result, stepcount)
    }
  }

  lemma EncRunNext(s: Enc, bytes: seq<octet>, k: nat)
    requires k < |bytes|
    ensures EncRun(s, bytes[..k + 1]) ==
            (EncByte(EncRun(s, bytes[..k]).0, bytes[k]).0,
             EncRun(s, bytes[..k]).1 + EncByte(EncRun(s, bytes[..k]).0, bytes[k]).1)
    ensures |EncRun(s, bytes[..k]).1| + |EncByte(EncRun(s, bytes[..k]).0, bytes[k]).1| <= |EncRun(s, bytes).1|
  {
    assert bytes[..k + 1][..k] == bytes[..k];
    EncRunGrows(s, bytes, k + 1);
  }

  /** *codechar++ = c */
  method Emit(code: array<octet>, n: nat, c: octet) returns (m: nat)
    requires n < code.Length
    modifies code
    ensures m == n + 1 && code[..m] == old(code[..n]) + [c]
  {
    code[n] := c;
    m := n + 1;
  }

  /** After k bytes of the block the encoder is in state s and has written out. */
  ghost predicate Encoded(start: Enc, plain: seq<octet>, k: int, s: Enc, out: seq<octet>) {
    0 <= k <= |plain| && EncRun(start, plain[..k]) == (s, out)
  }

  /** The three cases of the encoder's switch, each for one byte. */
  method CaseA(ghost start: Enc, plain: seq<octet>, i: nat, ghost before: octet, code: array<octet>, n: nat,
               ghost count: nat)
    returns (m: nat, result: octet)
    requires i < |plain| && n <= code.Length && |EncRun(start, plain).1| <= code.Length
    requires Encoded(start, plain, i, Enc(StepA, before, count), code[..n])
    modifies code
    ensures m <= code.Length && Encoded(start, plain, i + 1, Enc(StepB, result, count), code[..m])
  {
    EncRunNext(start, plain, i);
    var fragment := plain[i];
    result := (fragment & 0xFC) >> 2;
    m := Emit(code, n, EncodeValue(result));
    result := (fragment & 0x03) << 4;
  }

  method CaseB(ghost start: Enc, plain: seq<octet>, i: nat, before: octet, code: array<octet>, n: nat, ghost count: nat)
    returns (m: nat, result: octet)
    requires i < |plain| && n <= code.Length && |EncRun(start, plain).1| <= code.Length
    requires Encoded(start, plain, i, Enc(StepB, before, count), code[..n])
    modifies code
    ensures m <= code.Length && Encoded(start, plain, i + 1, Enc(StepC, result, count), code[..m])
  {
    EncRunNext(start, plain, i);
    var fragment := plain[i];
    result := before | ((fragment & 0xF0) >> 4);
    m := Emit(code, n, EncodeValue(result));
    result := (fragment & 0x0F) << 2;
  }

  method CaseC(ghost start: Enc, plain: seq<octet>, i: nat, before: octet, code: array<octet>, n: nat, st: EncodeState)
    returns (m: nat, result: octet)
    requires i < |plain| && n <= code.Length && |EncRun(start, plain).1| <= code.Length
    requires Encoded(start, plain, i, Enc(StepC, before, st.stepcount), code[..n])
    modifies code, st`stepcount
    ensures m <= code.Length && Encoded(start, plain, i + 1, Enc(StepA, result, st.stepcount), code[..m])
  {
    EncRunNext(start, plain, i);
    var fragment := plain[i];
    result := before | ((fragment & 0xC0) >> 6);
    m := Emit(code, n, EncodeValue(result));
    ghost var third := result;
    result := fragment & 0x3F;
    m := Emit(code, m, EncodeValue(result));
    AfterPair(old(code[..n]), EncodeValue(third), EncodeValue(result), LineBreak(st.stepcount));
    m := BreakLine(code, m, st);
  }

  /** Counts the group, and starts a new line after the last one of a line. */
  method BreakLine(code: array<octet>, n: nat, st: EncodeState) returns (m: nat)
    requires n + |LineBreak(st.stepcount)| <= code.Length
    modifies code, st`stepcount
    ensures m == n + |LineBreak(old(st.stepcount))| && code[..m] == old(code[..n]) + LineBreak(old(st.stepcount))
    ensures st.stepcount == NextCount(old(st.stepcount))
  {
    m := n;
    st.stepcount := st.stepcount + 1;
    if st.stepcount == GROUPS_PER_LINE {
      m := Emit(code, m, NEWLINE);
      st.stepcount := 0;
    }
  }

  lemma AfterPair(out: seq<octet>, a: octet, b: octet, nl: seq<octet>)
    ensures out + ([a, b] + nl) == out + [a] + [b] + nl
  {
  }

  /** Encodes a block from wherever the last one stopped; the buffer must have room for what
      there is to write. */
  method EncodeBlock(plain: seq<octet>, code: array<octet>, st: EncodeState) returns (n: nat)
    requires |EncRun(st.View(), plain).1| <= code.Length
    modifies code, st
    ensures n <= code.Length
    ensures EncRun(old(st.View()), plain) == (st.View(), code[..n])
  {
    ghost var start := st.View();
    var i := 0;
    var step, result := st.step, st.result;
    n := 0;
    assert plain[..|plain|] == plain;
    while true
      invariant n <= code.Length && Encoded(start, plain, i, Enc(step, result, st.stepcount), code[..n])
      decreases |plain| - i
    {
      if step == StepA {
        if i == |plain| {
          st.result, st.step := result, StepA;
          return;
        }
        n, result := CaseA(start, plain, i, result, code, n, st.stepcount);
        i := i + 1;
        step := StepB;
      }
      if step == StepB {
        if i == |plain| {
          st.result, st.step := result, StepB;
          return;
        }
        n, result := CaseB(start, plain, i, result, code, n, st.stepcount);
        i := i + 1;
        step := StepC;
      }
      if i == |plain| {
        st.result, st.step := result, StepC;
        return;
      }
      n, result := CaseC(start, plain, i, result, code, n, st);
      i := i + 1;
      step := StepA;
    }
  }

  method EncodeBlockEnd(code: array<octet>, st: EncodeState) returns (n: nat)
    requires 4 <= code.Length
    modifies code
    ensures n <= code.Length && code[..n] == EncEnd(st.View())
  {
    n := 0;
    match st.step {
      case StepB =>
        n := Emit(code, n, EncodeValue(st.result));
        n := Emit(code, n, PAD);
        n := Emit(code, n, PAD);
      case StepC =>
        n := Emit(code, n, EncodeValue(st.result));
        n := Emit(code, n, PAD);
      case StepA =>
    }
    n := Emit(code, n, NEWLINE);
  }

  // ---------- the decoder ----------

  class DecodeState {
    var step: DecodeStep
    var plainchar: octet

    constructor ()
      ensures View() == DEC_START
    {
      step, plainchar := Stepa, 0;
    }

    /** Between groups the saved byte is whatever the buffer held, and is never looked at. */
    ghost function View(): Dec
      reads this
    {
      Dec(step, if step == Stepa then 0 else plainchar)
    }
  }

  lemma DecRunNext(s: Dec, cs: seq<octet>, k: nat, beyond: octet)
    requires k < |cs|
    ensures DecRun(s, cs[..k + 1], beyond) ==
            (DecChar(DecRun(s, cs[..k], beyond).0, cs[k], beyond).0,
             DecRun(s, cs[..k], beyond).1 + DecChar(DecRun(s, cs[..k], beyond).0, cs[k], beyond).1)
    ensures |DecRun(s, cs[..k + 1], beyond).1| <= |DecRun(s, cs, beyond).1|
  {
    assert cs[..k + 1][..k] == cs[..k];
    DecRunConcat(s, cs[..k + 1], cs[k + 1..], beyond);
    assert cs[..k + 1] + cs[k + 1..] == cs;
  }

  ghost predicate Decoded(start: Dec, cs: seq<octet>, k: int, beyond: octet, s: Dec, out: seq<octet>) {
    0 <= k <= |cs| && DecRun(start, cs[..k], beyond) == (s, out)
  }

  /** The do-while loop in front of every case: read up to the next character of the alphabet. */
  method NextFragment(ghost start: Dec, cs: seq<octet>, i: nat, beyond: octet, ghost s: Dec, ghost out: seq<octet>)
    returns (j: nat, found: bool, fragment: octet)
    requires Decoded(start, cs, i, beyond, s, out)
    ensures i <= j <= |cs|
    ensures !found ==> j == |cs| && Decoded(start, cs, j, beyond, s, out)
    ensures found ==> i < j && !Negative(fragment) && fragment == DecodeValue(cs[j - 1], beyond)
    ensures found ==> Decoded(start, cs, j, beyond, DecFragment(s, fragment).0, out + DecFragment(s, fragment).1)
    ensures found ==> |out + DecFragment(s, fragment).1| <= |DecRun(start, cs, beyond).1|
  {
    j := i;
    while true
      invariant i <= j <= |cs| && Decoded(start, cs, j, beyond, s, out)
      decreases |cs| - j
    {
      if j == |cs| {
        return j, false, 255;
      }
      DecRunNext(start, cs, j, beyond);
      fragment := DecodeValue(cs[j], beyond);
      j := j + 1;
      if !Negative(fragment) {
        return j, true, fragment;
      }
      assert out + [] == out;
    }
  }

  /** The four cases of the decoder's switch, each with its loop in front. */
  method Casea(ghost start: Dec, cs: seq<octet>, i: nat, beyond: octet, plain: array<octet>, n: nat)
    returns (j: nat, found: bool)
    requires n < plain.Length && Decoded(start, cs, i, beyond, Dec(Stepa, 0), plain[..n])
    modifies plain
    ensures i <= j <= |cs|
    ensures !found ==> j == |cs| && Decoded(start, cs, j, beyond, Dec(Stepa, 0), plain[..n])
    ensures found ==> i < j && Decoded(start, cs, j, beyond, Dec(Stepb, plain[n]), plain[..n])
  {
    var fragment;
    j, found, fragment := NextFragment(start, cs, i, beyond, Dec(Stepa, 0), plain[..n]);
    if found {
      plain[n] := (fragment & 0x3F) << 2;
      assert plain[..n] + [] == plain[..n] == old(plain[..n]);
    }
  }

  method Caseb(ghost start: Dec, cs: seq<octet>, i: nat, beyond: octet, plain: array<octet>, n: nat)
    returns (j: nat, found: bool, m: nat)
    requires n < plain.Length && |DecRun(start, cs, beyond).1| < plain.Length
    requires Decoded(start, cs, i, beyond, Dec(Stepb, plain[n]), plain[..n])
    modifies plain
    ensures i <= j <= |cs| && m < plain.Length
    ensures !found ==> j == |cs| && m == n && Decoded(start, cs, j, beyond, Dec(Stepb, plain[m]), plain[..m])
    ensures found ==> Decoded(start, cs, j, beyond, Dec(Stepc, plain[m]), plain[..m])
  {
    var fragment;
    m := n;
    j, found, fragment := NextFragment(start, cs, i, beyond, Dec(Stepb, plain[n]), plain[..n]);
    if found {
      m := Finish(plain, n, (fragment & 0x30) >> 4);
      Begin(plain, m, (fragment & 0x0F) << 4);
    }
  }

  method Casec(ghost start: Dec, cs: seq<octet>, i: nat, beyond: octet, plain: array<octet>, n: nat)
    returns (j: nat, found: bool, m: nat)
    requires n < plain.Length && |DecRun(start, cs, beyond).1| < plain.Length
    requires Decoded(start, cs, i, beyond, Dec(Stepc, plain[n]), plain[..n])
    modifies plain
    ensures i <= j <= |cs| && m < plain.Length
    ensures !found ==> j == |cs| && m == n && Decoded(start, cs, j, beyond, Dec(Stepc, plain[m]), plain[..m])
    ensures found ==> Decoded(start, cs, j, beyond, Dec(Stepd, plain[m]), plain[..m])
  {
    var fragment;
    m := n;
    j, found, fragment := NextFragment(start, cs, i, beyond, Dec(Stepc, plain[n]), plain[..n]);
    if found {
      m := Finish(plain, n, (fragment & 0x3C) >> 2);
      Begin(plain, m, (fragment & 0x03) << 6);
    }
  }

  method Cased(ghost start: Dec, cs: seq<octet>, i: nat, beyond: octet, plain: array<octet>, n: nat)
    returns (j: nat, found: bool, m: nat)
    requires n < plain.Length && |DecRun(start, cs, beyond).1| < plain.Length
    requires Decoded(start, cs, i, beyond, Dec(Stepd, plain[n]), plain[..n])
    modifies plain
    ensures i <= j <= |cs| && m < plain.Length
    ensures !found ==> j == |cs| && m == n && Decoded(start, cs, j, beyond, Dec(Stepd, plain[m]), plain[..m])
    ensures found ==> i < j && Decoded(start, cs, j, beyond, Dec(Stepa, 0), plain[..m])
  {
    var fragment;
    m := n;
    j, found, fragment := NextFragment(start, cs, i, beyond, Dec(Stepd, plain[n]), plain[..n]);
    if found {
      m := Finish(plain, n, fragment & 0x3F);
    }
  }

  /** Decodes a block from wherever the last one stopped.  The routine touches one byte behind
      the last one it decodes. */
  method DecodeBlock(cs: seq<octet>, plain: array<octet>, st: DecodeState, beyond: octet) returns (n: nat)
    requires |DecRun(st.View(), cs, beyond).1| < plain.Length
    modifies plain, st
    ensures n < plain.Length
    ensures DecRun(old(st.View()), cs, beyond) == (st.View(), plain[..n])
  {
    ghost var start := st.View();
    var i, step, found := 0, st.step, true;
    n := 0;
    plain[0] := st.plainchar;
    assert cs[..|cs|] == cs;
    while true
      invariant n < plain.Length
      invariant Decoded(start, cs, i, beyond, Dec(step, if step == Stepa then 0 else plain[n]), plain[..n])
      decreases |cs| - i
    {
      if step == Stepa {
        i, found := Casea(start, cs, i, beyond, plain, n);
        if !found {
          st.step, st.plainchar := Stepa, plain[n];
          return;
        }
        step := Stepb;
      }
      if step == Stepb {
        i, found, n := Caseb(start, cs, i, beyond, plain, n);
        if !found {
          st.step, st.plainchar := Stepb, plain[n];
          return;
        }
        step := Stepc;
      }
      if step == Stepc {
        i, found, n := Casec(start, cs, i, beyond, plain, n);
        if !found {
          st.step, st.plainchar := Stepc, plain[n];
          return;
        }
        step := Stepd;
      }
      i, found, n := Cased(start, cs, i, beyond, plain, n);
      if !found {
        st.step, st.plainchar := Stepd, plain[n];
        return;
      }
      step := Stepa;
    }
  }

  /** *plainchar = high */
  method Begin(plain: array<octet>, n: nat, high: octet)
    requires n < plain.Length
    modifies plain
    ensures plain[n] == high && plain[..n] == old(plain[..n])
  {
    plain[n] := high;
  }

  /** *plainchar++ |= low */
  method Finish(plain: array<octet>, n: nat, low: octet) returns (m: nat)
    requires n < plain.Length
    modifies plain
    ensures m == n + 1 && plain[..m] == old(plain[..n]) + [old(plain[n]) | low]
  {
    plain[n] := plain[n] | low;
    m := n + 1;
  }

  // ---------- input cut into blocks ----------

  function Join(blocks: seq<seq<octet>>): seq<octet> {
    if blocks == [] then [] else Join(blocks[..|blocks| - 1]) + blocks[|blocks| - 1]
  }

  lemma JoinNext(blocks: seq<seq<octet>>, k: nat)
    requires k < |blocks|
    ensures Join(blocks[..k + 1]) == Join(blocks[..k]) + blocks[k]
  {
    assert blocks[..k + 1][..k] == blocks[..k];
  }

  /** What the next byte of a group may still cost: a third character and a line break. */
  function Debt(s: Enc): nat {
    match s.step case StepA => 0 case StepB => 2 case StepC => 4
  }

  /** Five characters for three bytes are always enough. */
  lemma {:induction false} EncRunBound(s: Enc, bytes: seq<octet>)
    ensures 3 * |EncRun(s, bytes).1| + Debt(EncRun(s, bytes).0) <= 5 * |bytes| + Debt(s)
  {
    if bytes != [] {
      EncRunBound(s, bytes[..|bytes| - 1]);
      var t := EncRun(s, bytes[..|bytes| - 1]).0;
      var b := bytes[|bytes| - 1];
      assert 3 * |EncByte(t, b).1| + Debt(EncByte(t, b).0) <= 5 + Debt(t);
    }
  }

  lemma {:induction false} DecRunBound(s: Dec, cs: seq<octet>, beyond: octet)
    ensures |DecRun(s, cs, beyond).1| <= |cs|
  {
    if cs != [] {
      DecRunBound(s, cs[..|cs| - 1], beyond);
      assert |DecChar(DecRun(s, cs[..|cs| - 1], beyond).0, cs[|cs| - 1], beyond).1| <= 1;
    }
  }

  /** Encoding block by block gives the text of the whole input. */
  method EncodeBlocks(blocks: seq<seq<octet>>) returns (text: seq<octet>)
    ensures text == EncodeText(Join(blocks)) == RfcLines(Join(blocks))
  {
    var st := new EncodeState();
    text := [];
    for k := 0 to |blocks|
      invariant fresh(st) && EncRun(ENC_START, Join(blocks[..k])) == (st.View(), text)
    {
      JoinNext(blocks, k);
      EncRunConcat(ENC_START, Join(blocks[..k]), blocks[k]);
      EncRunBound(st.View(), blocks[k]);
      var code := new octet[2 * |blocks[k]| + 2];
      var n := EncodeBlock(blocks[k], code, st);
      text := text + code[..n];
    }
    assert blocks[..|blocks|] == blocks;
    var code := new octet[4];
    var n := EncodeBlockEnd(code, st);
    text := text + code[..n];
    EncodeTextIsRfcLines(Join(blocks));
  }

  /** Decoding a text cut anywhere gives back the bytes it encodes. */
  method DecodeBlocks(blocks: seq<seq<octet>>, beyond: octet) returns (bytes: seq<octet>)
    ensures bytes == DecRun(DEC_START, Join(blocks), beyond).1
    ensures forall original :: Join(blocks) == EncodeText(original) ==> bytes == original
  {
    var st := new DecodeState();
    bytes := [];
    for k := 0 to |blocks|
      invariant fresh(st) && DecRun(DEC_START, Join(blocks[..k]), beyond) == (st.View(), bytes)
    {
      JoinNext(blocks, k);
      DecRunConcat(DEC_START, Join(blocks[..k]), blocks[k], beyond);
      DecRunBound(st.View(), blocks[k], beyond);
      var plain := new octet[|blocks[k]| + 1];
      var n := DecodeBlock(blocks[k], plain, st, beyond);
      bytes := bytes + plain[..n];
    }
    assert blocks[..|blocks|] == blocks;
    forall original | Join(blocks) == EncodeText(original)
      ensures bytes == original
    {
      RoundTrip(original, beyond);
    }
  }

  // ---------- Base64Putter ----------

  const BUFFER_SIZE: nat := 128
  const ENCODE_SIZE: nat := 256

  lemma {:induction false} NoNul(s: Enc, bytes: seq<octet>)
    ensures 0 !in EncRun(s, bytes).1
  {
    if bytes != [] {
      NoNul(s, bytes[..|bytes| - 1]);
      ByteNoNul(EncRun(s, bytes[..|bytes| - 1]).0, bytes[|bytes| - 1]);
    }
  }

  lemma ByteNoNul(s: Enc, b: octet)
    ensures 0 !in EncByte(s, b).1
  {
  }

  lemma EndNoNul(s: Enc)
    ensures 0 !in EncEnd(s)
  {
  }

  /** What an encoder in state s, with out written, makes of the last bytes. */
  function Completed(out: seq<octet>, s: Enc, bytes: seq<octet>): seq<octet> {
    out + EncRun(s, bytes).1 + EncEnd(EncRun(s, bytes).0)
  }

  lemma CompletedIsText(put: seq<octet>, k: nat, out: seq<octet>, s: Enc, bytes: seq<octet>)
    requires k <= |put| && put[k..] == bytes && EncRun(ENC_START, put[..k]) == (s, out)
    ensures Completed(out, s, bytes) == EncodeText(put)
  {
    EncRunConcat(ENC_START, put[..k], bytes);
    assert put[..k] + bytes == put;
  }

  class Base64Putter {
    const buffer: array<octet>
    var bufferCur: nat
    const enc: EncodeState
    var out: seq<octet>
    /** The bytes put so far. */
    ghost var put: seq<octet>

    constructor ()
      ensures Valid() && put == [] && fresh(buffer) && fresh(enc)
    {
      buffer := new octet[BUFFER_SIZE];
      enc := new EncodeState();
      bufferCur, out, put := 0, [], [];
    }

    ghost predicate Valid()
      reads this, buffer, enc
    {
      && buffer.Length == BUFFER_SIZE && bufferCur < BUFFER_SIZE && bufferCur <= |put|
      && put[|put| - bufferCur..] == buffer[..bufferCur]
      && EncRun(ENC_START, put[..|put| - bufferCur]) == (enc.View(), out)
    }

    /** Encodes the buffered bytes; the block fits, with room for its NUL. */
    method EncodeBuffer() returns (text: seq<octet>)
      requires buffer.Length == BUFFER_SIZE && bufferCur <= BUFFER_SIZE
      modifies enc
      ensures EncRun(old(enc.View()), buffer[..bufferCur]) == (enc.View(), text)
    {
      var outBlock := new octet[ENCODE_SIZE];
      EncRunBound(enc.View(), buffer[..bufferCur]);
      NoNul(enc.View(), buffer[..bufferCur]);
      var cnt := EncodeBlock(buffer[..bufferCur], outBlock, enc);
      outBlock[cnt] := 0;
      Common.CStringStops(outBlock[..], 0, cnt);
      assert outBlock[..][..cnt] == outBlock[..cnt];
      text := Common.CString(outBlock[..], 0);
    }

    method PutByte(b: octet)
      requires Valid()
      modifies this, buffer, enc
      ensures Valid() && put == old(put) + [b]
      ensures bufferCur == if old(bufferCur) + 1 == BUFFER_SIZE then 0 else old(bufferCur) + 1
    {
      buffer[bufferCur] := b;
      bufferCur := bufferCur + 1;
      put := put + [b];
      assert put[..|put| - bufferCur] == old(put[..|put| - bufferCur]);
      assert put[|put| - bufferCur..] == buffer[..bufferCur];
      if bufferCur == BUFFER_SIZE {
        Flush();
      }
    }

    method Flush()
      requires buffer.Length == BUFFER_SIZE == bufferCur && bufferCur <= |put|
      requires put[|put| - bufferCur..] == buffer[..bufferCur]
      requires EncRun(ENC_START, put[..|put| - bufferCur]) == (enc.View(), out)
      modifies this, enc
      ensures Valid() && put == old(put) && bufferCur == 0
    {
      EncRunConcat(ENC_START, put[..|put| - bufferCur], buffer[..bufferCur]);
      assert put[..|put| - bufferCur] + buffer[..bufferCur] == put;
      var text := EncodeBuffer();
      out := out + text;
      bufferCur := 0;
      assert put[..|put|] == put;
    }

    method PutBytes(data: seq<octet>)
      requires Valid()
      modifies this, buffer, enc
      ensures Valid() && put == old(put) + data
    {
      for i := 0 to |data|
        invariant Valid() && put == old(put) + data[..i]
      {
        PutByte(data[i]);
        assert data[..i + 1] == data[..i] + [data[i]];
      }
      assert data[..|data|] == data;
    }

    /** What is written, then the buffered bytes and the end.  The encoder's state moves on and the
        buffer stays, so another call encodes the buffered bytes again. */
    method Serialize() returns (ret: seq<octet>)
      requires buffer.Length == BUFFER_SIZE && bufferCur < BUFFER_SIZE
      modifies enc
      ensures ret == Completed(out, old(enc.View()), buffer[..bufferCur])
      ensures enc.View() == EncRun(old(enc.View()), buffer[..bufferCur]).0
    {
      var text := EncodeBuffer();
      var tail := EncodeEnd();
      ret := out + text + tail;
    }

    /** The first time, that is the text of all the bytes put. */
    method SerializeOnce() returns (ret: seq<octet>)
      requires Valid()
      modifies enc
      ensures ret == EncodeText(put)
    {
      CompletedIsText(put, |put| - bufferCur, out, enc.View(), buffer[..bufferCur]);
      ret := Serialize();
    }

    method EncodeEnd() returns (text: seq<octet>)
      ensures text == EncEnd(enc.View())
    {
      var outBlock := new octet[ENCODE_SIZE];
      EndNoNul(enc.View());
      var cnt := EncodeBlockEnd(outBlock, enc);
      outBlock[cnt] := 0;
      Common.CStringStops(outBlock[..], 0, cnt);
      assert outBlock[..][..cnt] == outBlock[..cnt];
      text := Common.CString(outBlock[..], 0);
    }
  }

  lemma TwiceLengths(b: octet)
    ensures var s1 := EncRun(ENC_START, [b]).0;
            |Completed([], ENC_START, [b])| == 5 && |Completed([], s1, [b])| == 4
  {
    EncRunOne(ENC_START, b);
    EncRunOne(EncByte(ENC_START, b).0, b);
  }

  /** Serializing twice with a byte in the buffer encodes the byte again, at the next place of its
      group: the second text is one character shorter. */
  method SerializedTwice(putter: Base64Putter, b: octet) returns (first: seq<octet>, second: seq<octet>)
    requires putter.Valid() && putter.put == [b] && putter.bufferCur == 1
    modifies putter.enc
    ensures first == EncodeText([b]) && |first| == 5 && |second| == 4
  {
    assert putter.put[..0] == [] && putter.put[0..] == [b];
    TwiceLengths(b);
    CompletedIsText([b], 0, putter.out, putter.enc.View(), [b]);
    first := putter.Serialize();
    second := putter.Serialize();
  }

  method SimpleBase64Encode(input: seq<octet>) returns (text: seq<octet>)
    ensures text == EncodeText(input) == RfcLines(input)
  {
    EncodeTextIsRfcLines(input);
    var putter := new Base64Putter();
    putter.PutBytes(input);
    assert putter.put == input;
    text := putter.SerializeOnce();
  }
}
