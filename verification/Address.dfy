/** IPv4 addresses as text: printing (`inet_ntoa`), splitting at dots, and the column comparator. */
module Address {
  import opened Bytes
  import opened Numerals
  import opened Decoder

  /** `inet_ntoa`. */
  function Dotted(x: Addr): string {
    Dec(x.a) + ("." + (Dec(x.b) + ("." + (Dec(x.c) + ("." + Dec(x.d))))))
  }

  /** The address as a 32-bit number in host order. */
  function Number(x: Addr): (n: nat)
    ensures n < 0x1_0000_0000
  {
    x.a as nat * 0x100_0000 + x.b as nat * 0x1_0000 + x.c as nat * 0x100 + x.d as nat
  }

  /** `QString::split(".")`. */
  function Split(s: string): (parts: seq<string>)
    ensures |parts| >= 1
  {
    if s == "" then [""] else
      var parts := Split(s[1..]);
      if s[0] == '.' then [""] + parts else [[s[0]] + parts[0]] + parts[1..]
  }

  predicate FourParts(s: string) {
    |Split(s)| >= 4
  }

  function Octet(s: string, i: nat): int
    requires FourParts(s) && i < 4
  {
    ToInt(Split(s)[i])
  }

  /** The comparator of the source and destination columns, from part i on. */
  predicate BeforeFrom(ascending: bool, s: string, t: string, i: nat)
    requires FourParts(s) && FourParts(t) && i <= 4
    decreases 4 - i
  {
    if i == 4 then false
    else if Octet(s, i) != Octet(t, i) then
      if ascending then Octet(s, i) < Octet(t, i) else Octet(s, i) > Octet(t, i)
    else BeforeFrom(ascending, s, t, i + 1)
  }

  predicate Before(ascending: bool, s: string, t: string)
    requires FourParts(s) && FourParts(t)
  {
    BeforeFrom(ascending, s, t, 0)
  }

  // ---------- the comparator on any four-part texts ----------

  lemma BeforeIsLexicographic(ascending: bool, s: string, t: string)
    requires FourParts(s) && FourParts(t)
    ensures Before(true, s, t) <==>
      || Octet(s, 0) < Octet(t, 0)
      || (Octet(s, 0) == Octet(t, 0) && (|| Octet(s, 1) < Octet(t, 1)
      || (Octet(s, 1) == Octet(t, 1) && (|| Octet(s, 2) < Octet(t, 2)
      || (Octet(s, 2) == Octet(t, 2) && Octet(s, 3) < Octet(t, 3))))))
    ensures Before(false, s, t) <==> Before(true, t, s)
  {
    assert forall up :: BeforeFrom(up, s, t, 3) <==>
      Octet(s, 3) != Octet(t, 3) && if up then Octet(s, 3) < Octet(t, 3) else Octet(s, 3) > Octet(t, 3);
    assert forall up :: BeforeFrom(up, t, s, 3) <==>
      Octet(s, 3) != Octet(t, 3) && if up then Octet(t, 3) < Octet(s, 3) else Octet(t, 3) > Octet(s, 3);
    assert forall up :: BeforeFrom(up, s, t, 1) <==>
      if Octet(s, 1) != Octet(t, 1) then (if up then Octet(s, 1) < Octet(t, 1) else Octet(s, 1) > Octet(t, 1))
      else if Octet(s, 2) != Octet(t, 2) then (if up then Octet(s, 2) < Octet(t, 2) else Octet(s, 2) > Octet(t, 2))
      else BeforeFrom(up, s, t, 3);
    assert forall up :: BeforeFrom(up, t, s, 1) <==>
      if Octet(s, 1) != Octet(t, 1) then (if up then Octet(t, 1) < Octet(s, 1) else Octet(t, 1) > Octet(s, 1))
      else if Octet(s, 2) != Octet(t, 2) then (if up then Octet(t, 2) < Octet(s, 2) else Octet(t, 2) > Octet(s, 2))
      else BeforeFrom(up, t, s, 3);
  }

  /** The comparator is a strict weak order, as `std::sort` demands. */
  lemma BeforeIsStrictWeakOrder(ascending: bool, s: string, t: string, u: string)
    requires FourParts(s) && FourParts(t) && FourParts(u)
    ensures !Before(ascending, s, s)
    ensures Before(ascending, s, t) && Before(ascending, t, u) ==> Before(ascending, s, u)
    ensures !Before(ascending, s, t) && !Before(ascending, t, u) ==> !Before(ascending, s, u)
  {
    BeforeIsLexicographic(ascending, s, t);
    BeforeIsLexicographic(ascending, t, u);
    BeforeIsLexicographic(ascending, s, u);
    BeforeIsLexicographic(ascending, s, s);
    BeforeIsLexicographic(ascending, t, s);
    BeforeIsLexicographic(ascending, u, t);
    BeforeIsLexicographic(ascending, u, s);
  }

  // ---------- on printed addresses it is numeric order ----------

  lemma {:induction false} SplitNoDot(p: string)
    requires '.' !in p
    ensures Split(p) == [p]
  {
    if p == "" {
    } else {
      SplitNoDot(p[1..]);
      assert p == [p[0]] + p[1..];
    }
  }

  lemma {:induction false} SplitAtDot(p: string, rest: string)
    requires '.' !in p
    ensures Split(p + ("." + rest)) == [p] + Split(rest)
  {
    var s := p + ("." + rest);
    if p == "" {
      assert s == "." + rest && s[1..] == rest;
    } else {
      SplitAtDot(p[1..], rest);
      assert s[1..] == p[1..] + ("." + rest);
      assert p == [p[0]] + p[1..];
    }
  }

  lemma OctetText(n: byte)
    ensures '.' !in Dec(n) && ToInt(Dec(n)) == n
  {
    ValueOfDec(n);
  }

  /** Printing an address, splitting it at the dots and reading the parts back is the identity. */
  lemma DottedRoundTrip(x: Addr)
    ensures Split(Dotted(x)) == [Dec(x.a), Dec(x.b), Dec(x.c), Dec(x.d)]
    ensures FourParts(Dotted(x))
    ensures Octet(Dotted(x), 0) == x.a && Octet(Dotted(x), 1) == x.b
    ensures Octet(Dotted(x), 2) == x.c && Octet(Dotted(x), 3) == x.d
  {
    OctetText(x.a);
    OctetText(x.b);
    OctetText(x.c);
    OctetText(x.d);
    var t3 := Dec(x.d);
    var t2 := Dec(x.c) + ("." + t3);
    var t1 := Dec(x.b) + ("." + t2);
    SplitNoDot(t3);
    SplitAtDot(Dec(x.c), t3);
    SplitAtDot(Dec(x.b), t2);
    SplitAtDot(Dec(x.a), t1);
  }

  lemma NumberIsLexicographic(x: Addr, y: Addr)
    ensures Number(x) < Number(y) <==>
      || x.a < y.a
      || (x.a == y.a && (|| x.b < y.b
      || (x.b == y.b && (|| x.c < y.c
      || (x.c == y.c && x.d < y.d)))))
  {
  }

  /** On printed addresses the comparator is the numeric order of the 32-bit addresses. */
  lemma BeforeIsNumeric(x: Addr, y: Addr)
    ensures FourParts(Dotted(x)) && FourParts(Dotted(y))
    ensures Before(true, Dotted(x), Dotted(y)) <==> Number(x) < Number(y)
    ensures Before(false, Dotted(x), Dotted(y)) <==> Number(x) > Number(y)
  {
    DottedRoundTrip(x);
    DottedRoundTrip(y);
    BeforeIsLexicographic(true, Dotted(x), Dotted(y));
    BeforeIsLexicographic(true, Dotted(y), Dotted(x));
    NumberIsLexicographic(x, y);
    NumberIsLexicographic(y, x);
  }
}
