/**
 Text of numbers as Qt prints and reads it: `QString::number`, `QString::arg`
 with base 16 and a zero fill, and `QString::toInt` on unsigned decimal text.
 */
module Numerals {
  import opened Wrappers

  predicate IsDigit(c: char) {
    '0' <= c <= '9'
  }

  predicate AllDigits(s: string) {
    forall i | 0 <= i < |s| :: IsDigit(s[i])
  }

  function DigitValue(c: char): (d: nat)
    requires IsDigit(c)
    ensures d < 10
  {
    c as int - '0' as int
  }

  function Digit(d: nat): (c: char)
    requires d < 10
    ensures IsDigit(c) && DigitValue(c) == d
  {
    ('0' as int + d) as char
  }

  /** Decimal text of a natural number, without leading zeros. */
  function Dec(n: nat): string {
    if n < 10 then [Digit(n)] else Dec(n / 10) + [Digit(n % 10)]
  }

  /** Decimal text of an integer. */
  function Signed(i: int): string {
    if i < 0 then "-" + Dec(-i) else Dec(i)
  }

  /** The number a digit string denotes. */
  function Value(s: string): nat
    requires AllDigits(s)
  {
    if s == [] then 0 else 10 * Value(s[..|s| - 1]) + DigitValue(s[|s| - 1])
  }

  lemma {:induction false} ValueOfDec(n: nat)
    ensures Dec(n) != [] && AllDigits(Dec(n)) && Value(Dec(n)) == n
  {
    if n >= 10 {
      ValueOfDec(n / 10);
      assert Dec(n)[..|Dec(n)| - 1] == Dec(n / 10);
    } else {
      assert Dec(n)[..0] == [];
    }
  }

  /** `QString::toInt` on text without sign or blanks: 0 for text that is no 32-bit number. */
  function ToInt(s: string): int {
    if s != [] && AllDigits(s) && Value(s) <= 0x7fff_ffff then Value(s) else 0
  }

  // ---------- readers ----------

  /** How many digits the text starts with. */
  function Span(s: string): (k: nat)
    ensures k <= |s| && AllDigits(s[..k])
    ensures k == |s| || !IsDigit(s[k])
  {
    if s == [] || !IsDigit(s[0]) then 0 else
      var k := Span(s[1..]);
      assert s[..k + 1] == [s[0]] + s[1..][..k];
      k + 1
  }

  lemma {:induction false} SpanStops(p: string, rest: string)
    requires AllDigits(p)
    requires rest == [] || !IsDigit(rest[0])
    ensures Span(p + rest) == |p|
  {
    var s := p + rest;
    var k := Span(s);
    assert forall i | 0 <= i < |p| :: s[i] == p[i];
    assert forall i | 0 <= i < k :: IsDigit(s[..k][i]);
    assert rest != [] ==> s[|p|] == rest[0];
  }

  /** Reads the decimal number the text starts with. */
  function ReadNat(s: string): Option<(nat, string)> {
    var k := Span(s);
    if k == 0 then None else Some((Value(s[..k]), s[k..]))
  }

  lemma ReadNatDec(n: nat, rest: string)
    requires rest == [] || !IsDigit(rest[0])
    ensures ReadNat(Dec(n) + rest) == Some((n, rest))
  {
    ValueOfDec(n);
    SpanStops(Dec(n), rest);
    var s := Dec(n) + rest;
    assert s[..|Dec(n)|] == Dec(n) && s[|Dec(n)|..] == rest;
  }

  /** Reads a number that may carry a minus sign. */
  function ReadInt(s: string): Option<(int, string)> {
    if s != [] && s[0] == '-' then
      var (n, rest) :- ReadNat(s[1..]);
      Some((0 - n, rest))
    else
      var (n, rest) :- ReadNat(s);
      Some((n, rest))
  }

  lemma ReadIntSigned(i: int, rest: string)
    requires rest == [] || !IsDigit(rest[0])
    ensures ReadInt(Signed(i) + rest) == Some((i, rest))
  {
    hide Dec, ReadNat;
    var s := Signed(i) + rest;
    if i < 0 {
      ReadNatDec(-i, rest);
      assert s[1..] == Dec(-i) + rest;
    } else {
      ReadNatDec(i, rest);
      ValueOfDec(i);
      assert s[0] == Dec(i)[0];
    }
  }

  /** Consumes a fixed text. */
  function Expect(s: string, p: string): Option<string> {
    if p <= s then Some(s[|p|..]) else None
  }

  lemma ExpectOk(p: string, rest: string)
    ensures Expect(p + rest, p) == Some(rest)
  {
    assert (p + rest)[|p|..] == rest;
  }

  // ---------- texts built by appending ----------

  function Join(parts: seq<string>): string {
    if parts == [] then "" else parts[0] + Join(parts[1..])
  }

  lemma {:induction false} JoinConcat(p: seq<string>, q: seq<string>)
    ensures Join(p + q) == Join(p) + Join(q)
  {
    if p == [] {
      assert p + q == q;
    } else {
      assert (p + q)[0] == p[0] && (p + q)[1..] == p[1..] + q;
      JoinConcat(p[1..], q);
      assert p[0] + (Join(p[1..]) + Join(q)) == Join(p) + Join(q);
    }
  }

  lemma JoinSnoc(p: seq<string>, x: string)
    ensures Join(p + [x]) == Join(p) + x
  {
    JoinConcat(p, [x]);
    assert [x][1..] == [];
  }

  lemma JoinFrom(p: seq<string>, k: nat)
    requires k < |p|
    ensures Join(p[k..]) == p[k] + Join(p[k + 1..])
  {
    assert p[k..][1..] == p[k + 1..];
  }

  // ---------- hexadecimal ----------

  const HEX: string := "0123456789abcdef"

  function HexValue(c: char): Option<nat> {
    if '0' <= c <= '9' then Some(c as int - '0' as int)
    else if 'a' <= c <= 'f' then Some(c as int - 'a' as int + 10)
    else None
  }

  function HexDigit(d: nat): (c: char)
    requires d < 16
    ensures HexValue(c) == Some(d)
  {
    HEX[d]
  }

  predicate AllHex(s: string) {
    forall i | 0 <= i < |s| :: HexValue(s[i]).Some?
  }

  /** Hexadecimal text without fill. */
  function Hex(n: nat): string {
    if n < 16 then [HexDigit(n)] else Hex(n / 16) + [HexDigit(n % 16)]
  }

  function Zeros(k: int): (s: string)
    ensures |s| == if k <= 0 then 0 else k
    ensures forall i | 0 <= i < |s| :: s[i] == '0'
  {
    if k <= 0 then "" else "0" + Zeros(k - 1)
  }

  /** `QString::arg(n, width, 16, '0')`: fills to the left, never truncates. */
  function HexPadded(n: nat, width: nat): string {
    Zeros(width - |Hex(n)|) + Hex(n)
  }

  function HexNumber(s: string): nat
    requires AllHex(s)
  {
    if s == [] then 0 else 16 * HexNumber(s[..|s| - 1]) + HexValue(s[|s| - 1]).value
  }

  lemma {:induction false} HexNumberOfHex(n: nat)
    ensures Hex(n) != [] && AllHex(Hex(n)) && HexNumber(Hex(n)) == n
  {
    if n >= 16 {
      HexNumberOfHex(n / 16);
      assert Hex(n)[..|Hex(n)| - 1] == Hex(n / 16);
    } else {
      assert Hex(n)[..0] == [];
    }
  }

  lemma {:induction false} ZeroTail(k: int)
    ensures AllHex(Zeros(k)) && HexNumber(Zeros(k)) == 0
    decreases k
  {
    if k <= 0 {
    } else {
      ZeroTail(k - 1);
      assert Zeros(k)[..k - 1] == Zeros(k - 1);
    }
  }

  lemma {:induction false} ZerosKeepNumber(k: int, s: string)
    requires s != [] && AllHex(s)
    ensures AllHex(Zeros(k) + s) && HexNumber(Zeros(k) + s) == HexNumber(s)
    decreases |s|
  {
    var t := Zeros(k) + s;
    assert t[..|t| - 1] == Zeros(k) + s[..|s| - 1];
    if |s| == 1 {
      assert t[..|t| - 1] == Zeros(k);
      ZeroTail(k);
    } else {
      ZerosKeepNumber(k, s[..|s| - 1]);
    }
  }

  lemma HexNumberOfPadded(n: nat, width: nat)
    ensures AllHex(HexPadded(n, width)) && HexNumber(HexPadded(n, width)) == n
    ensures |HexPadded(n, width)| >= width
  {
    HexNumberOfHex(n);
    ZerosKeepNumber(width - |Hex(n)|, Hex(n));
  }

  lemma {:induction false} NoLeadingZero(n: nat)
    ensures Hex(n) != [] && (n > 0 ==> Hex(n)[0] != '0')
    ensures n == 0 ==> |Hex(n)| == 1
  {
    if n < 16 {
    } else {
      NoLeadingZero(n / 16);
    }
  }

  /** Text that is longer than the fill asks for has no leading zero. */
  lemma NoExtraZero(n: nat, width: nat)
    requires width > 0
    ensures |HexPadded(n, width)| > width ==> HexPadded(n, width)[0] != '0'
  {
    NoLeadingZero(n);
    if |Hex(n)| > width {
      assert HexPadded(n, width) == Hex(n);
    }
  }
}
