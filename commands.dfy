/**
 * The robot's instruction tokens emitted by command_generator (algo/helper.py):
 * one-cell translates, the four 90-degree turns, photograph requests and the
 * stop token, with their wire spelling and the decimal reading that the
 * compression pass applies to the last three characters of a translate.
 */
module Commands {

  /** The four 90-degree turns: forward right, backward left, forward left, backward right. */
  datatype TurnKind = FR | BL | FL | BR

  /** Where the photographed face lies relative to the robot: the _L, _R and _C tags. */
  datatype Side = Left | Right | Centre

  datatype Command =
    | Translate(forward: bool, magnitude: nat)   // FWnnn / BWnnn, nnn = cells * 10
    | Turn(kind: TurnKind)                        // FR000, BL000, FL000, BR000
    | Snap(id: int, side: Side)                   // SNAP<id>_L / _R / _C
    | Stop                                        // SSSSS

  /** The merge condition of the compression pass: two translates of the same polarity. */
  predicate Merges(a: Command, b: Command) {
    a.Translate? && b.Translate? && a.forward == b.forward
  }

  // ---- Decimal text ----

  predicate IsDigits(s: string) {
    forall i :: 0 <= i < |s| ==> '0' <= s[i] <= '9'
  }

  function DigitChar(d: nat): (c: char)
    requires d < 10
    ensures '0' <= c <= '9'
  {
    ('0' as int + d) as char
  }

  function DigitValue(c: char): nat
    requires '0' <= c <= '9'
  {
    c as int - '0' as int
  }

  function Pow10(n: nat): (p: nat)
    ensures p >= 1
  {
    if n == 0 then 1 else 10 * Pow10(n - 1)
  }

  /** Python's str of a natural number: its decimal digits, no leading zero. */
  function Decimal(n: nat): (s: string)
    ensures IsDigits(s)
    ensures 1 <= |s|
    ensures n >= 10 ==> |s| >= 2
    ensures n >= 100 ==> |s| >= 3
    decreases n
  {
    if n < 10 then [DigitChar(n)] else Decimal(n / 10) + [DigitChar(n % 10)]
  }

  /** Python's str of an integer. */
  function IntString(i: int): string {
    if i < 0 then "-" + Decimal(-i) else Decimal(i)
  }

  /** Python's int of a string of decimal digits. */
  function ParseDecimal(s: string): nat
    requires IsDigits(s)
  {
    if s == [] then 0 else ParseDecimal(s[..|s| - 1]) * 10 + DigitValue(s[|s| - 1])
  }

  // ---- Wire spelling ----

  /** The magnitude field: a leading zero below 100, the plain number from 100 on. */
  function MagnitudeField(m: nat): string {
    if m >= 100 then Decimal(m) else "0" + Decimal(m)
  }

  function TurnToken(k: TurnKind): string {
    match k
    case FR => "FR000"
    case BL => "BL000"
    case FL => "FL000"
    case BR => "BR000"
  }

  function SideTag(s: Side): string {
    match s
    case Left => "_L"
    case Right => "_R"
    case Centre => "_C"
  }

  function Render(c: Command): string {
    match c
    case Translate(f, m) => (if f then "FW" else "BW") + MagnitudeField(m)
    case Turn(k) => TurnToken(k)
    case Snap(id, side) => "SNAP" + IntString(id) + SideTag(side)
    case Stop => "SSSSS"
  }

  /** The textual test of the compression loop, cmd[1] == "W" and ccmd[:2] == cmd[:2]. */
  predicate MergeTest(ccmd: string, cmd: string) {
    |ccmd| >= 2 && |cmd| >= 2 && cmd[1] == 'W' && ccmd[..2] == cmd[..2]
  }

  /** The list of strings command_generator returns for a list of tokens. */
  function Wire(cmds: seq<Command>): seq<string> {
    seq(|cmds|, i requires 0 <= i < |cmds| => Render(cmds[i]))
  }

  // ---- Properties of the spelling ----

  lemma {:induction false} DecimalRoundTrip(n: nat)
    ensures ParseDecimal(Decimal(n)) == n
    decreases n
  {
    if n >= 10 {
      var s := Decimal(n);
      assert s[..|s| - 1] == Decimal(n / 10);
      DecimalRoundTrip(n / 10);
    }
  }

  lemma ShiftDigit(p: int, q: int, r: int, d: int)
    ensures (p * q + r) * 10 + d == p * (10 * q) + (r * 10 + d)
  {
  }

  lemma DropThousands(p: int, q: int)
    requires 0 <= q < 1000
    ensures (p * 1000 + q) % 1000 == q
  {
  }

  lemma {:induction false} ParseAppend(a: string, b: string)
    requires IsDigits(a) && IsDigits(b)
    ensures IsDigits(a + b)
    ensures ParseDecimal(a + b) == ParseDecimal(a) * Pow10(|b|) + ParseDecimal(b)
    decreases |b|
  {
    if b == [] {
      assert a + b == a;
    } else {
      var b' := b[..|b| - 1];
      assert (a + b)[..|a + b| - 1] == a + b';
      ParseAppend(a, b');
      ShiftDigit(ParseDecimal(a), Pow10(|b'|), ParseDecimal(b'), DigitValue(b[|b| - 1]));
    }
  }

  lemma {:induction false} ParseBound(s: string)
    requires IsDigits(s)
    ensures ParseDecimal(s) < Pow10(|s|)
    decreases |s|
  {
    if s != [] {
      ParseBound(s[..|s| - 1]);
    }
  }

  /** A number followed by three digits reads as the number times 1000 plus those digits. */
  lemma ThreeDigitTail(s: string, a: string, b: string)
    requires s == a + b && IsDigits(a) && IsDigits(b) && |b| == 3
    ensures ParseDecimal(s) == ParseDecimal(a) * 1000 + ParseDecimal(b)
    ensures ParseDecimal(b) < 1000
  {
    ParseAppend(a, b);
    ParseBound(b);
    assert Pow10(|b|) == 1000;
  }

  /** A digit string of length three or more is its leading part times 1000 plus its last three digits. */
  lemma SplitThree(s: string)
    requires IsDigits(s) && |s| >= 3
    ensures IsDigits(s[..|s| - 3]) && IsDigits(s[|s| - 3..])
    ensures ParseDecimal(s) == ParseDecimal(s[..|s| - 3]) * 1000 + ParseDecimal(s[|s| - 3..])
    ensures ParseDecimal(s[|s| - 3..]) < 1000
  {
    var a, b := s[..|s| - 3], s[|s| - 3..];
    assert s == a + b;
    assert IsDigits(a) && IsDigits(b);
    ThreeDigitTail(s, a, b);
  }

  lemma SplitMod(n: int, p: int, q: int)
    requires n == p * 1000 + q && 0 <= q < 1000
    ensures n % 1000 == q
  {
    DropThousands(p, q);
  }

  /** Reading the last three digits of a number reads it modulo 1000. */
  lemma LastThreeDigits(s: string)
    requires IsDigits(s) && |s| >= 3
    ensures IsDigits(s[|s| - 3..])
    ensures ParseDecimal(s[|s| - 3..]) == ParseDecimal(s) % 1000
  {
    SplitThree(s);
    SplitMod(ParseDecimal(s), ParseDecimal(s[..|s| - 3]), ParseDecimal(s[|s| - 3..]));
  }

  /** The last three characters of the magnitude field of a magnitude of at least 10. */
  lemma FieldLastThree(m: nat)
    requires m >= 10
    ensures var field := MagnitudeField(m);
      && |field| >= 3 && IsDigits(field[|field| - 3..]) && ParseDecimal(field[|field| - 3..]) == m % 1000
  {
    DecimalRoundTrip(m);
    var d := Decimal(m);
    if m >= 100 {
      LastThreeDigits(d);
    } else {
      assert |Decimal(m / 10)| == 1;
      assert |d| == 2;
      var field := "0" + d;
      assert field[|field| - 3..] == field;
      ParseAppend("0", d);
      assert ParseDecimal("0") == 0 by {
        assert "0"[..0] == [];
      }
    }
  }

  /** A magnitude of 1 to 99 cells is spelled with exactly three digits, so the token has five characters. */
  lemma FieldWidth(f: bool, m: nat)
    requires 10 <= m < 1000
    ensures |MagnitudeField(m)| == 3
    ensures |Render(Translate(f, m))| == 5
  {
    var d := Decimal(m);
    if m >= 100 {
      assert |Decimal(m / 10 / 10)| == 1;
      assert |Decimal(m / 10)| == 2;
    } else {
      assert |Decimal(m / 10)| == 1;
    }
  }

  /**
   * int(last[-3:]) on a rendered translate of at least one cell reads its
   * magnitude modulo 1000 (exactly the magnitude below 1000).
   */
  lemma MagnitudeReadBack(f: bool, m: nat)
    requires m >= 10
    ensures var w := Render(Translate(f, m));
      && |w| >= 5 && IsDigits(w[|w| - 3..]) && ParseDecimal(w[|w| - 3..]) == m % 1000
  {
    var field := MagnitudeField(m);
    FieldLastThree(m);
    var w := Render(Translate(f, m));
    assert w == (if f then "FW" else "BW") + field;
    assert w[|w| - 3..] == field[|field| - 3..];
  }

  /**
   * The textual merge test holds exactly when the previous token and the
   * next one are translates of the same polarity.
   */
  lemma MergeTestOnWire(prev: Command, next: Command)
    ensures |Render(prev)| >= 3 && |Render(next)| >= 3
    ensures MergeTest(Render(prev), Render(next)) <==> Merges(prev, next)
  {
    var w, cw := Render(next), Render(prev);
    assert next.Translate? ==> w[..2] == (if next.forward then "FW" else "BW");
    assert prev.Translate? ==> cw[..2] == (if prev.forward then "FW" else "BW");
    assert next.Snap? ==> w[..2] == "SN";
    assert prev.Snap? ==> cw[..2] == "SN";
    if prev.Turn? { assert cw[1] != 'W'; }
    if prev.Stop? { assert cw[1] != 'W'; }
  }

  /** "SSSSS" is the spelling of the stop token and of nothing else. */
  lemma StopSpelling(c: Command)
    ensures Render(c) == "SSSSS" <==> c == Stop
  {
    if c.Translate? {
      assert Render(c)[0] != 'S';
    } else if c.Snap? {
      assert Render(c)[1] == 'N';
    }
  }
}
