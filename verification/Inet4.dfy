/** IPv4 addresses as text: the parser of Inet4Address, which adds its octets to a variable that was
    never given a first value, and the printer. */
module Inet4 {
  import opened Common

  type u32 = x: int | 0 <= x < 0x1_0000_0000

  datatype Error = TooManyOctets | NotNumeric | OutOfRange

  datatype Result = Address(addr: u32) | Failed(error: Error)

  // ---------- what a text means ----------

  /** The texts between the dots. */
  function Groups(text: string): (gs: seq<string>)
    ensures gs != []
  {
    if text == "" then [""]
    else
      var gs, last := Groups(text[..|text| - 1]), text[|text| - 1];
      if last == '.' then gs + [""] else gs[..|gs| - 1] + [gs[|gs| - 1] + [last]]
  }

  predicate Digit(c: char) { '0' <= c <= '9' }

  /** A decimal number; no digits at all count as zero. */
  function Decimal(g: string): nat {
    if g == "" then 0
    else 10 * Decimal(g[..|g| - 1]) + if Digit(g[|g| - 1]) then g[|g| - 1] as int - '0' as int else 0
  }

  predicate Octet(g: string) {
    (forall i :: 0 <= i < |g| ==> Digit(g[i])) && Decimal(g) <= 255
  }

  predicate Octets(gs: seq<string>) {
    forall i :: 0 <= i < |gs| ==> Octet(gs[i])
  }

  predicate Accepted(text: string) {
    |Groups(text)| <= 4 && Octets(Groups(text))
  }

  /** The groups as digits of a number to the base 256, behind what was there before. */
  function Quad(before: nat, gs: seq<string>): nat {
    if gs == [] then before else 256 * Quad(before, gs[..|gs| - 1]) + Decimal(gs[|gs| - 1])
  }

  // ---------- the parser, a character at a time ----------

  datatype State = Going(addr: u32, buffer: nat, ndots: nat) | Stopped(error: Error)

  function Shifted(addr: u32, buffer: nat): u32 { (256 * addr + buffer) % 0x1_0000_0000 }

  function Step(s: State, c: char): State {
    if s.Stopped? then s
    else if c == '.' then
      if s.ndots == 3 then Stopped(TooManyOctets) else Going(Shifted(s.addr, s.buffer), 0, s.ndots + 1)
    else if !Digit(c) then Stopped(NotNumeric)
    else
      var buffer := s.buffer * 10 + (c as int - '0' as int);
      if buffer > 255 then Stopped(OutOfRange) else s.(buffer := buffer)
  }

  function Steps(start: u32, text: string): State {
    if text == "" then Going(start, 0, 0) else Step(Steps(start, text[..|text| - 1]), text[|text| - 1])
  }

  function Parse(start: u32, text: string): Result {
    match Steps(start, text)
    case Stopped(error) => Failed(error)
    case Going(addr, buffer, _) => Address(Shifted(addr, buffer))
  }

  lemma {:induction false} StaysStopped(start: u32, text: string, k: nat)
    requires k <= |text| && Steps(start, text[..k]).Stopped?
    ensures Steps(start, text) == Steps(start, text[..k])
  {
    if k == |text| {
      assert text[..k] == text;
    } else {
      var init := text[..|text| - 1];
      assert init[..k] == text[..k];
      StaysStopped(start, init, k);
    }
  }

  /** fromString with a port: start is whatever addr holds at first. */
  method FromString(text: string, start: u32) returns (r: Result)
    ensures r == Parse(start, text)
  {
    var addr: u32, buffer: nat, ndots: nat := start, 0, 0;
    var cur := 0;
    while cur < |text|
      invariant cur <= |text|
      invariant Steps(start, text[..cur]) == Going(addr, buffer, ndots)
    {
      assert text[..cur + 1][..cur] == text[..cur];
      if text[cur] == '.' {
        if ndots == 3 {
          StaysStopped(start, text, cur + 1);
          return Failed(TooManyOctets);
        }
        addr := (256 * addr + buffer) % 0x1_0000_0000;
        buffer := 0;
        ndots := ndots + 1;
      } else {
        if text[cur] > '9' || text[cur] < '0' {
          StaysStopped(start, text, cur + 1);
          return Failed(NotNumeric);
        }
        buffer := buffer * 10 + (text[cur] as int - '0' as int);
        if buffer > 255 {
          StaysStopped(start, text, cur + 1);
          return Failed(OutOfRange);
        }
      }
      cur := cur + 1;
    }
    assert text[..|text|] == text;
    addr := (256 * addr + buffer) % 0x1_0000_0000;
    r := Address(addr);
  }

  // ---------- what it accepts, and as what ----------

  lemma OctetGrows(g: string, c: char)
    ensures Octet(g + [c]) <==> Octet(g) && Digit(c) && 10 * Decimal(g) + (c as int - '0' as int) <= 255
    ensures Octet(g + [c]) ==> Decimal(g + [c]) == 10 * Decimal(g) + (c as int - '0' as int)
  {
    var h := g + [c];
    assert h[..|h| - 1] == g && h[|h| - 1] == c;
    assert Octet(h) ==> forall i :: 0 <= i < |g| ==> Digit(h[i]);
  }

  lemma OctetsSnoc(gs: seq<string>, g: string)
    ensures Octets(gs + [g]) <==> Octets(gs) && Octet(g)
  {
    if Octets(gs + [g]) {
      assert forall i :: 0 <= i < |gs| ==> gs[i] == (gs + [g])[i];
      assert (gs + [g])[|gs|] == g;
    }
  }

  lemma QuadSnoc(before: nat, gs: seq<string>, g: string)
    ensures Quad(before, gs + [g]) == 256 * Quad(before, gs) + Decimal(g)
  {
    assert (gs + [g])[..|gs|] == gs;
  }

  lemma ShiftMod(x: nat, buffer: nat)
    ensures Shifted(x % 0x1_0000_0000, buffer) == (256 * x + buffer) % 0x1_0000_0000
  {
    var q, r := x / 0x1_0000_0000, x % 0x1_0000_0000;
    assert 256 * x + buffer == 0x1_0000_0000 * (256 * q) + (256 * r + buffer);
  }

  /** What the three variables are after a text without an error. */
  predicate Read(s: State, start: u32, gs: seq<string>)
    requires gs != []
  {
    var n := |gs| - 1;
    && s.Going? && s.ndots == n
    && s.buffer == Decimal(gs[n]) && s.addr == Quad(start, gs[..n]) % 0x1_0000_0000
  }

  lemma DotStep(s: State, start: u32, gs: seq<string>)
    requires gs != [] && Read(s, start, gs) && |gs| < 4
    ensures Read(Step(s, '.'), start, gs + [""])
  {
    var done, g := gs[..|gs| - 1], gs[|gs| - 1];
    assert gs == done + [g] && (gs + [""])[..|gs|] == gs;
    QuadSnoc(start, done, g);
    ShiftMod(Quad(start, done), Decimal(g));
  }

  lemma DigitStep(s: State, start: u32, done: seq<string>, g: string, c: char)
    requires Read(s, start, done + [g]) && Octet(g + [c])
    ensures Read(Step(s, c), start, done + [g + [c]])
  {
    OctetGrows(g, c);
    assert (done + [g])[..|done|] == done && (done + [g + [c]])[..|done|] == done;
  }

  lemma BadCharStops(s: State, start: u32, done: seq<string>, g: string, c: char)
    requires Read(s, start, done + [g]) && Octet(g) && c != '.' && !Octet(g + [c])
    ensures Step(s, c).Stopped?
  {
    OctetGrows(g, c);
  }

  lemma {:induction false} ReadsGroups(start: u32, text: string)
    ensures Accepted(text) ==> Read(Steps(start, text), start, Groups(text))
    ensures !Accepted(text) ==> Steps(start, text).Stopped?
  {
    if text != "" {
      var init, c := text[..|text| - 1], text[|text| - 1];
      ReadsGroups(start, init);
      var gs, s := Groups(init), Steps(start, init);
      var done, g := gs[..|gs| - 1], gs[|gs| - 1];
      assert gs == done + [g];
      OctetsSnoc(done, g);
      if c == '.' {
        OctetsSnoc(gs, "");
        if Accepted(init) && |gs| < 4 {
          DotStep(s, start, gs);
        }
      } else {
        OctetsSnoc(done, g + [c]);
        OctetGrows(g, c);
        if Accepted(text) {
          DigitStep(s, start, done, g, c);
        } else if Accepted(init) {
          BadCharStops(s, start, done, g, c);
        }
      }
    }
  }

  /** Accepted are one to four groups of digits of at most 255 each; and then the result is their
      number to the base 256 behind the starting value, cut to 32 bits. */
  lemma ParseMeans(start: u32, text: string)
    ensures Parse(start, text).Address? <==> Accepted(text)
    ensures Accepted(text) ==> Parse(start, text).addr == Quad(start, Groups(text)) % 0x1_0000_0000
  {
    ReadsGroups(start, text);
    if Accepted(text) {
      var gs := Groups(text);
      var done, g := gs[..|gs| - 1], gs[|gs| - 1];
      assert gs == done + [g];
      QuadSnoc(start, done, g);
      ShiftMod(Quad(start, done), Decimal(g));
    }
  }

  lemma ParseIs(start: u32, text: string, gs: seq<string>, value: u32)
    requires gs == Groups(text) && |gs| <= 4 && Octets(gs)
    requires value == Quad(start, gs) % 0x1_0000_0000
    ensures Parse(start, text) == Address(value)
  {
    ParseMeans(start, text);
  }

  function ErrorAt(c: char): Error {
    if c == '.' then TooManyOctets else if Digit(c) then OutOfRange else NotNumeric
  }

  lemma StepError(s: State, c: char)
    requires s.Going? && Step(s, c).Stopped?
    ensures Step(s, c).error == ErrorAt(c)
  {
  }

  /** The error is that of the first character that cannot follow what is before it. */
  lemma {:induction false} FirstError(start: u32, text: string) returns (k: nat)
    requires Steps(start, text).Stopped?
    ensures k < |text| && Accepted(text[..k]) && !Accepted(text[..k + 1])
    ensures Parse(start, text) == Failed(ErrorAt(text[k]))
  {
    var n := |text| - 1;
    var init := text[..n];
    if Steps(start, init).Stopped? {
      k := FirstError(start, init);
      assert init[..k] == text[..k] && init[..k + 1] == text[..k + 1];
    } else {
      k := n;
      ReadsGroups(start, text);
      ReadsGroups(start, init);
      StepError(Steps(start, init), text[n]);
      assert text[..n + 1] == text;
    }
  }

  // ---------- the starting value ----------

  lemma {:induction false} QuadStart(start: nat, gs: seq<string>)
    ensures Quad(start, gs) == Pow256(|gs|) * start + Quad(0, gs)
  {
    if gs != [] {
      QuadStart(start, gs[..|gs| - 1]);
      assert 256 * (Pow256(|gs| - 1) * start) == Pow256(|gs|) * start;
    }
  }

  /** Four octets push the starting value out of the 32 bits; fewer do not. */
  lemma StartPushedOut(start: nat, n: nat, q: nat)
    requires 1 <= n <= 4
    ensures n == 4 ==> (Pow256(n) * start + q) % 0x1_0000_0000 == q % 0x1_0000_0000
    ensures n < 4 ==> (Pow256(n) * 1 + q) % 0x1_0000_0000 != q % 0x1_0000_0000
  {
    assert Pow256(1) == 0x100;
    assert Pow256(2) == 0x1_0000;
    assert Pow256(3) == 0x100_0000;
    if n == 4 {
      assert Pow256(4) == 0x1_0000_0000;
    }
  }

  /** An accepted text gives one address for all starting values exactly when it has four groups,
      that is, three dots. */
  lemma SameForAllStarts(text: string)
    requires Accepted(text)
    ensures (forall start: u32 :: Parse(start, text) == Parse(0, text)) <==> |Groups(text)| == 4
  {
    var gs := Groups(text);
    var q := Quad(0, gs);
    ParseIs(0, text, gs, q % 0x1_0000_0000);
    if |gs| == 4 {
      forall start: u32
        ensures Parse(start, text) == Parse(0, text)
      {
        QuadStart(start, gs);
        StartPushedOut(start, 4, q);
        ParseIs(start, text, gs, q % 0x1_0000_0000);
      }
    } else {
      QuadStart(1, gs);
      StartPushedOut(1, |gs|, q);
      ParseIs(1, text, gs, (Pow256(|gs|) + q) % 0x1_0000_0000);
      assert Parse(1, text) != Parse(0, text);
    }
  }

  /** A lone octet keeps three octets of whatever was in addr before. */
  lemma LoneOctet(start: u32)
    ensures Parse(start, "7") == Address((256 * start + 7) % 0x1_0000_0000)
  {
    assert "7"[..0] == "";
    assert Steps(start, "7") == Step(Steps(start, ""), '7');
  }

  lemma {:induction false} GroupsAreDots(text: string)
    ensures |Groups(text)| == multiset(text)['.'] + 1
  {
    if text != "" {
      var init := text[..|text| - 1];
      GroupsAreDots(init);
      assert text == init + [text[|text| - 1]];
    }
  }

  // ---------- printing ----------

  /** %d of a number that is not negative. */
  function Print(n: nat): (s: string)
    ensures s != ""
  {
    var d := [(48 + n % 10) as char];
    if n < 10 then d else Print(n / 10) + d
  }

  lemma {:induction false} PrintReads(n: nat)
    ensures forall i :: 0 <= i < |Print(n)| ==> Digit(Print(n)[i])
    ensures Decimal(Print(n)) == n
  {
    if n >= 10 {
      PrintReads(n / 10);
      var s := Print(n);
      assert s[..|s| - 1] == Print(n / 10);
    } else {
      var s := Print(n);
      assert s[..|s| - 1] == "" && Decimal("") == 0;
    }
  }

  function Dotted(a: u32): string {
    Print(a / 0x100_0000) + "." + Print(a / 0x1_0000 % 256) + "." + Print(a / 0x100 % 256) + "." + Print(a % 256)
  }

  /** toString: the address and the port. */
  function ToString(a: u32, port: nat): string { Dotted(a) + ":" + Print(port) }

  /** Behind the address and a colon the port is printed in decimal. */
  lemma PortReadsBack(a: u32, port: nat)
    ensures var i := |Dotted(a)|;
            && ToString(a, port)[..i] == Dotted(a) && i < |ToString(a, port)| && ToString(a, port)[i] == ':'
            && (forall c :: c in ToString(a, port)[i + 1..] ==> Digit(c))
            && Decimal(ToString(a, port)[i + 1..]) == port
  {
    PrintReads(port);
    assert ToString(a, port)[|Dotted(a)| + 1..] == Print(port);
  }

  lemma GroupsSnoc(text: string, c: char)
    requires c != '.'
    ensures var gs := Groups(text); Groups(text + [c]) == gs[..|gs| - 1] + [gs[|gs| - 1] + [c]]
  {
    assert (text + [c])[..|text|] == text;
  }

  lemma {:induction false} GroupAdded(text: string, g: string)
    requires '.' !in g
    ensures Groups(text + g) == Groups(text)[..|Groups(text)| - 1] + [Groups(text)[|Groups(text)| - 1] + g]
  {
    if g == "" {
      var gs := Groups(text);
      assert text + g == text && gs[|gs| - 1] + g == gs[|gs| - 1];
    } else {
      var init, c, gs := g[..|g| - 1], g[|g| - 1], Groups(text);
      var done, last := gs[..|gs| - 1], gs[|gs| - 1];
      GroupAdded(text, init);
      assert g == init + [c] && c in g;
      Assoc(text, init, [c]);
      Assoc(last, init, [c]);
      GroupsSnoc(text + init, c);
      assert (done + [last + init])[..|done|] == done;
    }
  }

  lemma DotAdded(text: string, g: string)
    requires '.' !in g
    ensures Groups(text + "." + g) == Groups(text) + [g]
  {
    assert (text + ".")[..|text|] == text;
    GroupAdded(text + ".", g);
    assert "" + g == g;
  }

  lemma GroupsOfDotted(a: string, b: string, c: string, d: string)
    requires '.' !in a && '.' !in b && '.' !in c && '.' !in d
    ensures Groups(a + "." + b + "." + c + "." + d) == [a, b, c, d]
  {
    GroupAdded("", a);
    assert "" + a == a;
    DotAdded(a, b);
    DotAdded(a + "." + b, c);
    DotAdded(a + "." + b + "." + c, d);
  }

  lemma QuadOfFour(start: nat, a: string, b: string, c: string, d: string, value: nat)
    requires value == 0x100_0000 * Decimal(a) + 0x1_0000 * Decimal(b) + 256 * Decimal(c) + Decimal(d)
    ensures Quad(start, [a, b, c, d]) == 0x1_0000_0000 * start + value
  {
    var one, two, three := [a], [a, b], [a, b, c];
    assert [] + [a] == one && one + [b] == two && two + [c] == three && three + [d] == [a, b, c, d];
    QuadSnoc(start, [], a);
    QuadSnoc(start, one, b);
    QuadSnoc(start, two, c);
    QuadSnoc(start, three, d);
  }

  lemma ParseWrapped(start: u32, text: string, gs: seq<string>, high: nat, low: u32)
    requires gs == Groups(text) && |gs| <= 4 && Octets(gs)
    requires Quad(start, gs) == 0x1_0000_0000 * high + low
    ensures Parse(start, text) == Address(low)
  {
    ParseIs(start, text, gs, low);
  }

  /** Four octets are the address they spell. */
  lemma FourParse(start: u32, text: string, a: string, b: string, c: string, d: string, value: u32)
    requires Groups(text) == [a, b, c, d] && Octet(a) && Octet(b) && Octet(c) && Octet(d)
    requires value == 0x100_0000 * Decimal(a) + 0x1_0000 * Decimal(b) + 256 * Decimal(c) + Decimal(d)
    ensures Parse(start, text) == Address(value)
  {
    assert Octets([a, b, c, d]);
    QuadOfFour(start, a, b, c, d, value);
    ParseWrapped(start, text, [a, b, c, d], start, value);
  }

  lemma PrintIsOctet(n: nat)
    requires n <= 255
    ensures Octet(Print(n)) && Decimal(Print(n)) == n
  {
    PrintReads(n);
  }

  lemma DivTwice(a: nat, p: nat)
    requires p == 0x100 || p == 0x1_0000
    ensures a / (256 * p) == a / p / 256
  {
    var q, r := a / p / 256, a / p % 256;
    if p == 0x100 {
      assert a == 0x1_0000 * q + (0x100 * r + a % 0x100);
    } else {
      assert a == 0x100_0000 * q + (0x1_0000 * r + a % 0x1_0000);
    }
  }

  lemma OctetsOf(a: u32)
    ensures a == 0x100_0000 * (a / 0x100_0000) + 0x1_0000 * (a / 0x1_0000 % 256) + 256 * (a / 256 % 256) + a % 256
  {
    DivTwice(a, 0x100);
    DivTwice(a, 0x1_0000);
    var x, y := a / 0x100, a / 0x1_0000;
    assert a == 256 * x + a % 256 && x == 256 * y + x % 256 && y == 256 * (a / 0x100_0000) + y % 256;
  }

  lemma DottedGroups(a: u32)
    ensures Groups(Dotted(a)) ==
      [Print(a / 0x100_0000), Print(a / 0x1_0000 % 256), Print(a / 0x100 % 256), Print(a % 256)]
  {
    PrintReads(a / 0x100_0000);
    PrintReads(a / 0x1_0000 % 256);
    PrintReads(a / 0x100 % 256);
    PrintReads(a % 256);
    GroupsOfDotted(Print(a / 0x100_0000), Print(a / 0x1_0000 % 256), Print(a / 0x100 % 256), Print(a % 256));
  }

  /** Every printed address is read back as itself, whatever addr held at first. */
  lemma PrintedReadsBack(a: u32, start: u32)
    ensures Parse(start, Dotted(a)) == Address(a)
  {
    var w, x, y, z := a / 0x100_0000, a / 0x1_0000 % 256, a / 0x100 % 256, a % 256;
    OctetsOf(a);
    PrintIsOctet(w);
    PrintIsOctet(x);
    PrintIsOctet(y);
    PrintIsOctet(z);
    DottedGroups(a);
    FourParse(start, Dotted(a), Print(w), Print(x), Print(y), Print(z), a);
  }

  /** The whole of toString is never accepted: it stops at the colon before the port. */
  lemma PortIsRejected(a: u32, port: nat, start: u32)
    ensures Parse(start, ToString(a, port)) == Failed(NotNumeric)
  {
    var text, k := ToString(a, port), |Dotted(a)|;
    PrintedReadsBack(a, start);
    assert text[..k] == Dotted(a);
    assert text[..k + 1][..k] == text[..k] && text[k] == ':';
    StaysStopped(start, text, k + 1);
  }
}
