/**
 The IPv4 header checksum: the source's 32-bit sum with carry folding against
 the one's complement sum of RFC 1071 (sections 1 and 2).
 */
module Checksum {
  import opened Bytes

  const TWO_16 := 0x1_0000

  const TWO_32 := 0x1_0000_0000

  const MAX_WORD := 0xffff

  type word = w: nat | w < 0x1_0000

  /** The 16-bit words of a byte sequence, in network order. */
  function Words(b: seq<byte>): (ws: seq<word>)
    requires |b| % 2 == 0
    ensures |ws| == |b| / 2
    ensures forall k | 0 <= k < |ws| :: ws[k] == U16(b, 2 * k)
  {
    seq(|b| / 2, k requires 0 <= k < |b| / 2 => U16(b, 2 * k))
  }

  // ---------- RFC 1071 ----------

  /** One's complement addition: a carry out of bit 15 is added back at bit 0. */
  function OnesAdd(a: word, b: word): word {
    if a + b < TWO_16 then a + b else a + b - TWO_16 + 1
  }

  function OnesSum(ws: seq<word>): word {
    if ws == [] then 0 else OnesAdd(OnesSum(ws[..|ws| - 1]), ws[|ws| - 1])
  }

  /** The Internet checksum: the one's complement of the one's complement sum. */
  function InternetChecksum(ws: seq<word>): word {
    MAX_WORD - OnesSum(ws)
  }

  // ---------- the source's arithmetic ----------

  function Sum(ws: seq<word>): nat {
    if ws == [] then 0 else Sum(ws[..|ws| - 1]) + ws[|ws| - 1]
  }

  /** One round of the carry loop. */
  function FoldOnce(x: nat): nat {
    x % TWO_16 + x / TWO_16
  }

  /** The representative of x modulo 65535 that repeated folding leaves: 0 only for 0. */
  function Residue(x: nat): (r: word)
    ensures r == 0 <==> x == 0
  {
    if x == 0 then 0 else 1 + (x - 1) % MAX_WORD
  }

  /** What the source computes, whatever the length: the sum is kept modulo 2^32. */
  function Computed(ws: seq<word>): word {
    MAX_WORD - Residue(Sum(ws) % TWO_32)
  }

  /** How many bytes the summing loop looks at: an odd length is rounded up. */
  function Span(headerLen: nat): (n: nat)
    ensures n % 2 == 0 && headerLen <= n <= headerLen + 1
  {
    (headerLen + 1) / 2 * 2
  }

  lemma SumPrefix(ws: seq<word>, k: nat)
    requires k < |ws|
    ensures Sum(ws[..k + 1]) == Sum(ws[..k]) + ws[k]
  {
    var front := ws[..k + 1];
    assert front[..|front| - 1] == ws[..k];
  }

  // ---------- folding ----------

  lemma ResidueUnique(x: nat, r: nat, j: int)
    requires x == r + MAX_WORD * j
    requires x > 0 && 1 <= r <= MAX_WORD
    ensures Residue(x) == r
  {
    assert x - 1 == (r - 1) + MAX_WORD * j;
    assert (x - 1) / MAX_WORD == j;
  }

  /** Folding keeps the value modulo 65535 and its being non-zero, and strictly decreases. */
  lemma FoldKeepsResidue(x: nat)
    ensures Residue(FoldOnce(x)) == Residue(x)
    ensures x >= TWO_16 ==> FoldOnce(x) < x
  {
    if x > 0 {
      var y := FoldOnce(x);
      var r := Residue(y);
      var j := (y - 1) / MAX_WORD;
      assert y == r + MAX_WORD * j;
      assert x == y + MAX_WORD * (x / TWO_16);
      ResidueUnique(x, r, j + x / TWO_16);
    }
  }

  lemma FoldedIsResidue(x: nat)
    requires x < TWO_16
    ensures Residue(x) == x
  {
    if x > 0 {
      ResidueUnique(x, x, 0);
    }
  }

  /** Two rounds of folding always suffice for a 32-bit sum. */
  lemma TwoRoundsSuffice(x: nat)
    requires x < TWO_32
    ensures FoldOnce(FoldOnce(x)) < TWO_16
  {
    assert FoldOnce(x) <= 2 * MAX_WORD;
  }

  lemma {:induction false} SumBound(ws: seq<word>)
    ensures Sum(ws) <= |ws| * MAX_WORD
  {
    if ws == [] {
    } else {
      SumBound(ws[..|ws| - 1]);
    }
  }

  lemma {:induction false} NoOverflow(ws: seq<word>)
    requires |ws| <= 65537
    ensures Sum(ws) < TWO_32
  {
    SumBound(ws);
  }

  /** The source's sum-then-fold is the one's complement sum. */
  lemma {:induction false} SumFoldsToOnesSum(ws: seq<word>)
    ensures Residue(Sum(ws)) == OnesSum(ws)
  {
    if ws == [] {
    } else {
      var front, w := ws[..|ws| - 1], ws[|ws| - 1];
      SumFoldsToOnesSum(front);
      var s := Sum(front);
      if s + w > 0 {
        var j := if s == 0 then 0 else (s - 1) / MAX_WORD;
        assert s == OnesSum(front) + MAX_WORD * j;
        var t := OnesSum(front) + w;
        ResidueUnique(s + w, OnesAdd(OnesSum(front), w), if t < TWO_16 then j else j + 1);
      }
    }
  }

  /**
   Beyond 131074 bytes the 32-bit sum may wrap; the result is then still the
   checksum exactly when the lost carries are a multiple of 65535 and the
   wrapped sum is not zero.
   */
  lemma ComputedIsChecksumIff(ws: seq<word>)
    ensures Computed(ws) == InternetChecksum(ws)
       <==> (Sum(ws) < TWO_32 || (Sum(ws) % TWO_32 != 0 && Sum(ws) / TWO_32 % MAX_WORD == 0))
  {
    SumFoldsToOnesSum(ws);
    var s := Sum(ws);
    var q, m := s / TWO_32, s % TWO_32;
    if q > 0 && m > 0 {
      var r := Residue(m);
      var j := (m - 1) / MAX_WORD;
      assert m == r + MAX_WORD * j;
      assert TWO_32 == 1 + MAX_WORD * 65537;
      assert s == m + q + MAX_WORD * (65537 * q);
      var d := q % MAX_WORD;
      assert q == d + MAX_WORD * (q / MAX_WORD);
      var k := j + 65537 * q + q / MAX_WORD;
      assert s == r + d + MAX_WORD * k;
      if r + d <= MAX_WORD {
        ResidueUnique(s, r + d, k);
      } else {
        ResidueUnique(s, r + d - MAX_WORD, k + 1);
      }
    }
  }

  // ---------- the loops of the source ----------

  lemma SumOfNone()
    ensures Sum([]) == 0
  {
  }

  lemma WordOfPrefix(data: seq<byte>, n: nat, k: nat)
    requires n % 2 == 0 && n <= |data| && 2 * k < n
    ensures k < |Words(data[..n])| && Words(data[..n])[k] == U16(data, 2 * k)
  {
  }

  /** The summing loop, on 32 bits. */
  method SumWords(data: seq<byte>, headerLen: nat) returns (sum: nat)
    requires Span(headerLen) <= |data|
    ensures sum == Sum(Words(data[..Span(headerLen)])) % TWO_32
  {
    ghost var ws := Words(data[..Span(headerLen)]);
    ghost var k := 0;
    sum := 0;
    var i := 0;
    hide Words, Sum, U16;
    assert Sum(ws[..0]) == 0 by {
      SumOfNone();
    }
    while i < headerLen
      invariant i == 2 * k && 0 <= k <= |ws|
      invariant sum == Sum(ws[..k]) % TWO_32
    {
      WordOfPrefix(data, Span(headerLen), k);
      SumPrefix(ws, k);
      sum := (sum + U16(data, i)) % TWO_32;
      i, k := i + 2, k + 1;
    }
    assert ws[..k] == ws;
  }

  /** The carry loop. */
  method FoldCarries(total: nat) returns (sum: nat)
    ensures sum == Residue(total)
  {
    sum := total;
    while sum >= TWO_16
      invariant Residue(sum) == Residue(total)
      decreases sum
    {
      FoldKeepsResidue(sum);
      sum := FoldOnce(sum);
    }
    FoldedIsResidue(sum);
  }

  /** `compute_ip_checksum`. */
  method ComputeIpChecksum(data: seq<byte>, headerLen: nat) returns (check: word)
    requires Span(headerLen) <= |data|
    ensures check == Computed(Words(data[..Span(headerLen)]))
    ensures headerLen <= 131074 ==> check == InternetChecksum(Words(data[..Span(headerLen)]))
  {
    hide Words, Sum, Residue, OnesSum;
    var sum := SumWords(data, headerLen);
    sum := FoldCarries(sum);
    check := MAX_WORD - sum;
    if headerLen <= 131074 {
      NoOverflow(Words(data[..Span(headerLen)]));
      SumFoldsToOnesSum(Words(data[..Span(headerLen)]));
    }
  }

  // ---------- order and byte order ----------

  lemma {:induction false} SumConcat(p: seq<word>, q: seq<word>)
    ensures Sum(p + q) == Sum(p) + Sum(q)
  {
    if q == [] {
      assert p + q == p;
    } else {
      SumConcat(p, q[..|q| - 1]);
      assert (p + q)[..|p + q| - 1] == p + q[..|q| - 1];
    }
  }

  function Without(ws: seq<word>, k: nat): seq<word>
    requires k < |ws|
  {
    ws[..k] + ws[k + 1..]
  }

  lemma WithoutMultiset(ws: seq<word>, k: nat)
    requires k < |ws|
    ensures multiset(Without(ws, k)) == multiset(ws) - multiset{ws[k]}
  {
    assert ws == ws[..k] + ([ws[k]] + ws[k + 1..]);
  }

  lemma WithoutSum(ws: seq<word>, k: nat)
    requires k < |ws|
    ensures Sum(ws) == Sum(Without(ws, k)) + ws[k]
  {
    hide Sum;
    SumPrefix(ws, k);
    SumConcat(ws[..k], ws[k + 1..]);
    assert ws == ws[..k + 1] + ws[k + 1..];
    SumConcat(ws[..k + 1], ws[k + 1..]);
  }

  lemma {:induction false} SumOfPermutation(p: seq<word>, q: seq<word>)
    requires multiset(p) == multiset(q)
    ensures Sum(p) == Sum(q)
  {
    if p == [] {
      assert |multiset(q)| == 0;
    } else {
      var last := |p| - 1;
      assert p[last] in multiset(q);
      var k :| 0 <= k < |q| && q[k] == p[last];
      WithoutMultiset(p, last);
      WithoutMultiset(q, k);
      SumOfPermutation(Without(p, last), Without(q, k));
      WithoutSum(p, last);
      WithoutSum(q, k);
    }
  }

  /** The checksum does not depend on the order of the words. */
  lemma ChecksumIgnoresOrder(p: seq<word>, q: seq<word>)
    requires multiset(p) == multiset(q)
    ensures InternetChecksum(p) == InternetChecksum(q) && Computed(p) == Computed(q)
  {
    SumOfPermutation(p, q);
    SumFoldsToOnesSum(p);
    SumFoldsToOnesSum(q);
  }

  function Swap(w: word): word {
    w % 256 * 256 + w / 256
  }

  function SwapAll(ws: seq<word>): (r: seq<word>)
    ensures |r| == |ws|
  {
    seq(|ws|, k requires 0 <= k < |ws| => Swap(ws[k]))
  }

  function HighBytes(ws: seq<word>): nat {
    if ws == [] then 0 else HighBytes(ws[..|ws| - 1]) + ws[|ws| - 1] / 256
  }

  lemma {:induction false} SumOfSwapped(ws: seq<word>)
    ensures Sum(SwapAll(ws)) as int == 256 * Sum(ws) - MAX_WORD * HighBytes(ws)
    ensures Sum(SwapAll(ws)) == 0 <==> Sum(ws) == 0
  {
    if ws == [] {
    } else {
      var front, w := ws[..|ws| - 1], ws[|ws| - 1];
      SumOfSwapped(front);
      assert SwapAll(ws)[..|ws| - 1] == SwapAll(front);
      assert Swap(w) as int == 256 * w - MAX_WORD * (w / 256);
    }
  }

  lemma ResidueOfSwapped(s: nat, t: nat, k: int)
    requires t as int == 256 * s - MAX_WORD * k
    requires t == 0 <==> s == 0
    ensures Residue(t) == Swap(Residue(s))
  {
    if s > 0 {
      var r := Residue(s);
      var j := (s - 1) / MAX_WORD;
      assert s == r + MAX_WORD * j;
      assert Swap(r) as int == 256 * r - MAX_WORD * (r / 256);
      assert Swap(r) >= 1;
      ResidueUnique(t, Swap(r), 256 * j - k + r / 256);
    }
  }

  lemma SwapOfComplement(w: word)
    ensures Swap(MAX_WORD - w) == MAX_WORD - Swap(w)
  {
    assert (MAX_WORD - w) / 256 == 255 - w / 256;
  }

  /** Byte-swapping every word byte-swaps the checksum (byte order independence, RFC 1071 section 2). */
  lemma ChecksumOfSwapped(ws: seq<word>)
    ensures InternetChecksum(SwapAll(ws)) == Swap(InternetChecksum(ws))
  {
    SumOfSwapped(ws);
    SumFoldsToOnesSum(ws);
    SumFoldsToOnesSum(SwapAll(ws));
    ResidueOfSwapped(Sum(ws), Sum(SwapAll(ws)), HighBytes(ws));
    SwapOfComplement(OnesSum(ws));
  }

  // ---------- the IPv4 header ----------

  /** A header with the checksum field (bytes 10 and 11) set to c. */
  function WithCheck(h: seq<byte>, c: word): (r: seq<byte>)
    requires |h| >= 12
    ensures |r| == |h|
  {
    h[10 := c / 256][11 := c % 256]
  }

  lemma SumUpdate(ws: seq<word>, k: nat, w: word)
    requires k < |ws|
    ensures Sum(ws[k := w]) + ws[k] == Sum(ws) + w
  {
    var a, z := ws[..k], ws[k + 1..];
    assert ws == a + ([ws[k]] + z);
    assert ws[k := w] == a + ([w] + z);
    SumConcat(a, [ws[k]] + z);
    SumConcat(a, [w] + z);
    SumConcat([ws[k]], z);
    SumConcat([w], z);
    assert [w][..0] == [] && [ws[k]][..0] == [];
  }

  lemma SumWithCheck(h: seq<byte>, c: word)
    requires |h| >= 12 && |h| % 2 == 0
    ensures Sum(Words(WithCheck(h, c))) == Sum(Words(WithCheck(h, 0))) + c
    ensures U16(h, 10) == c ==> WithCheck(h, c) == h
  {
    var ws := Words(WithCheck(h, 0));
    assert Words(WithCheck(h, c)) == ws[5 := c] by {
      forall k | 0 <= k < |ws| ensures Words(WithCheck(h, c))[k] == ws[5 := c][k] {
        assert U16(WithCheck(h, c), 2 * k) == if k == 5 then c else U16(WithCheck(h, 0), 2 * k);
      }
    }
    SumUpdate(ws, 5, c);
  }

  /** The first header byte holds the header length, so it is not zero. */
  lemma HeaderSumPositive(h: seq<byte>)
    requires |h| >= 12 && |h| % 2 == 0 && h[0] % 16 >= 5
    ensures Sum(Words(WithCheck(h, 0))) > 0
  {
    hide Sum;
    var ws := Words(WithCheck(h, 0));
    assert ws[0] == U16(h, 0) > 0;
    WithoutSum(ws, 0);
  }

  /** The status shown by the tree: a header is Good when the sum over it, check field included, checks to 0. */
  predicate Good(h: seq<byte>)
    requires |h| % 2 == 0
  {
    Computed(Words(h)) == 0
  }

  /** The checksum the sender stores, computed with the check field zeroed. */
  function Proper(h: seq<byte>): word
    requires |h| >= 12 && |h| % 2 == 0
  {
    Computed(Words(WithCheck(h, 0)))
  }

  lemma Complement(s: nat, c: word)
    requires s > 0
    ensures Residue(s + c) == MAX_WORD <==> c % MAX_WORD == (MAX_WORD - Residue(s)) % MAX_WORD
  {
    var r := Residue(s);
    var j := (s - 1) / MAX_WORD;
    assert s == r + MAX_WORD * j;
    if r + c <= MAX_WORD {
      ResidueUnique(s + c, r + c, j);
    } else if r + c <= 2 * MAX_WORD {
      ResidueUnique(s + c, r + c - MAX_WORD, j + 1);
    }
  }

  lemma GoodIffSums(h: seq<byte>, s: nat, c: word)
    requires |h| >= 12 && |h| % 2 == 0
    requires s > 0 && s == Sum(Words(WithCheck(h, 0))) && s + c == Sum(Words(h)) < TWO_32
    ensures Good(h) <==> c % MAX_WORD == Proper(h) % MAX_WORD
  {
    hide Words, Sum, Residue, WithCheck;
    Complement(s, c);
    assert (s + c) % TWO_32 == s + c && s % TWO_32 == s;
  }

  /** Good means: the stored field is congruent to the proper checksum modulo 65535. */
  lemma GoodIff(h: seq<byte>)
    requires 20 <= |h| <= 60 && |h| % 2 == 0 && h[0] % 16 >= 5
    ensures Good(h) <==> U16(h, 10) % MAX_WORD == Proper(h) % MAX_WORD
  {
    var c: word := U16(h, 10);
    SumWithCheck(h, c);
    HeaderSumPositive(h);
    var s := Sum(Words(WithCheck(h, 0)));
    NoOverflow(Words(h));
    NoOverflow(Words(WithCheck(h, 0)));
    GoodIffSums(h, s, c);
  }

  /** Storing the proper checksum makes the verifier report Good. */
  lemma StoredChecksumIsGood(h: seq<byte>)
    requires 20 <= |h| <= 60 && |h| % 2 == 0 && h[0] % 16 >= 5
    ensures Good(WithCheck(h, Proper(h)))
  {
    var g := WithCheck(h, Proper(h));
    assert WithCheck(g, 0) == WithCheck(h, 0);
    assert U16(g, 10) == Proper(h);
    GoodIff(g);
  }
}
