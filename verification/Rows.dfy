/** The rows of the packet list and the orders its column headers ask for. */
module Rows {
  import opened Address

  /** One row of the list (`st_pkt`). */
  datatype Row = Row(num: int, src: string, dst: string, proto: string, len: int, info: string)

  /** A comparator of the list: which column, and what the flags captured by it say. */
  datatype Order =
    | ByNum(ascending: bool)
    | BySrc(ascending: bool)
    | ByDst(ascending: bool)
    | ByProto(first: nat)
    | ByLen(ascending: bool)

  function ProtoNum(proto: string): (n: nat)
    ensures n < 3
  {
    if proto == "TCP" then 0 else if proto == "UDP" then 1 else if proto == "ICMP" then 2 else 0
  }

  /** The position of a protocol when `first` leads the rotation. */
  function Rotated(proto: string, first: nat): (n: nat)
    requires first < 3
    ensures n < 3
  {
    (ProtoNum(proto) + 3 - first) % 3
  }

  /** The comparator indexes the first four parts of an address text. */
  predicate Comparable(o: Order, r: Row) {
    match o
    case BySrc(_) => FourParts(r.src)
    case ByDst(_) => FourParts(r.dst)
    case ByProto(first) => first < 3
    case _ => true
  }

  predicate Less(o: Order, r: Row, s: Row)
    requires Comparable(o, r) && Comparable(o, s)
  {
    match o
    case ByNum(ascending) => if ascending then r.num < s.num else r.num > s.num
    case BySrc(ascending) => Before(ascending, r.src, s.src)
    case ByDst(ascending) => Before(ascending, r.dst, s.dst)
    case ByProto(first) => Rotated(r.proto, first) < Rotated(s.proto, first)
    case ByLen(ascending) => if ascending then r.len < s.len else r.len > s.len
  }

  ghost predicate AllComparable(o: Order, v: seq<Row>) {
    forall i | 0 <= i < |v| :: Comparable(o, v[i])
  }

  /** What `std::sort` promises of its result: no later row is less than an earlier one. */
  ghost predicate SortedBy(o: Order, v: seq<Row>)
    requires AllComparable(o, v)
  {
    forall i, j | 0 <= i < j < |v| :: !Less(o, v[j], v[i])
  }

  /** Every comparator is a strict weak order. */
  lemma LessIsStrictWeakOrder(o: Order, r: Row, s: Row, t: Row)
    requires Comparable(o, r) && Comparable(o, s) && Comparable(o, t)
    ensures !Less(o, r, r)
    ensures Less(o, r, s) && Less(o, s, t) ==> Less(o, r, t)
    ensures !Less(o, r, s) && !Less(o, s, t) ==> !Less(o, r, t)
  {
    match o
    case BySrc(ascending) => BeforeIsStrictWeakOrder(ascending, r.src, s.src, t.src);
    case ByDst(ascending) => BeforeIsStrictWeakOrder(ascending, r.dst, s.dst, t.dst);
    case _ =>
  }

  // ---------- sorting in place ----------

  /** The index of a least row of a[lo..]. */
  method LeastIndex(a: array<Row>, lo: nat, o: Order) returns (m: nat)
    requires lo < a.Length && AllComparable(o, a[..])
    ensures lo <= m < a.Length
    ensures forall q | lo <= q < a.Length :: !Less(o, a[q], a[m])
  {
    assert forall q | 0 <= q < a.Length :: a[..][q] == a[q];
    m := lo;
    LessIsStrictWeakOrder(o, a[lo], a[lo], a[lo]);
    var k := lo + 1;
    while k < a.Length
      invariant lo < k <= a.Length && lo <= m < k
      invariant forall q | lo <= q < k :: !Less(o, a[q], a[m])
    {
      if Less(o, a[k], a[m]) {
        forall q | lo <= q < k + 1
          ensures !Less(o, a[q], a[k])
        {
          LessIsStrictWeakOrder(o, a[q], a[k], a[m]);
          LessIsStrictWeakOrder(o, a[k], a[m], a[k]);
        }
        m := k;
      }
      k := k + 1;
    }
  }

  method Swap(a: array<Row>, i: nat, j: nat)
    requires i <= j < a.Length
    modifies a
    ensures a[..] == old(a[..])[i := old(a[j])][j := old(a[i])]
    ensures multiset(a[..]) == multiset(old(a[..]))
  {
    a[i], a[j] := a[j], a[i];
  }

  /** No row from position i on, nor between, precedes one of the first i rows. */
  ghost predicate SortedUpTo(o: Order, v: seq<Row>, i: nat)
    requires AllComparable(o, v) && i <= |v|
  {
    forall p, q | 0 <= p < i && p < q < |v| :: !Less(o, v[q], v[p])
  }

  lemma ComparableKept(o: Order, v: seq<Row>, w: seq<Row>)
    requires multiset(v) == multiset(w) && AllComparable(o, v)
    ensures AllComparable(o, w)
  {
    forall i | 0 <= i < |w|
      ensures Comparable(o, w[i])
    {
      assert w[i] in multiset(w);
      assert w[i] in v;
    }
  }

  lemma SwapExtends(o: Order, v: seq<Row>, w: seq<Row>, i: nat, m: nat)
    requires i <= m < |v| && AllComparable(o, v) && AllComparable(o, w)
    requires w == v[i := v[m]][m := v[i]]
    requires SortedUpTo(o, v, i)
    requires forall q | i <= q < |v| :: !Less(o, v[q], v[m])
    ensures SortedUpTo(o, w, i + 1)
  {
    forall p, q | 0 <= p < i + 1 && p < q < |w|
      ensures !Less(o, w[q], w[p])
    {
      var q' := if q == i then m else if q == m then i else q;
      assert w[q] == v[q'];
      if p < i {
        assert w[p] == v[p];
      }
    }
  }

  /** An in-place sort with the contract of `std::sort`. */
  method SortInPlace(a: array<Row>, o: Order)
    requires AllComparable(o, a[..])
    modifies a
    ensures multiset(a[..]) == multiset(old(a[..]))
    ensures AllComparable(o, a[..]) && SortedBy(o, a[..])
  {
    var i := 0;
    while i < a.Length
      invariant 0 <= i <= a.Length
      invariant multiset(a[..]) == multiset(old(a[..]))
      invariant AllComparable(o, a[..]) && SortedUpTo(o, a[..], i)
    {
      ghost var v := a[..];
      var m := LeastIndex(a, i, o);
      assert forall q | 0 <= q < a.Length :: v[q] == a[q];
      Swap(a, i, m);
      ComparableKept(o, v, a[..]);
      SwapExtends(o, v, a[..], i, m);
      i := i + 1;
    }
  }

  // ---------- counting, and what permutations keep ----------

  function Count(v: seq<Row>, p: Row -> bool): nat {
    if v == [] then 0 else Count(v[..|v| - 1], p) + if p(v[|v| - 1]) then 1 else 0
  }

  lemma {:induction false} CountConcat(v: seq<Row>, w: seq<Row>, p: Row -> bool)
    ensures Count(v + w, p) == Count(v, p) + Count(w, p)
  {
    if w == [] {
      assert v + w == v;
    } else {
      CountConcat(v, w[..|w| - 1], p);
      assert (v + w)[..|v + w| - 1] == v + w[..|w| - 1];
    }
  }

  function Without(v: seq<Row>, k: nat): seq<Row>
    requires k < |v|
  {
    v[..k] + v[k + 1..]
  }

  lemma WithoutMultiset(v: seq<Row>, k: nat)
    requires k < |v|
    ensures multiset(Without(v, k)) == multiset(v) - multiset{v[k]}
  {
    assert v == v[..k] + ([v[k]] + v[k + 1..]);
  }

  lemma CountPrefix(v: seq<Row>, k: nat, p: Row -> bool)
    requires k < |v|
    ensures Count(v[..k + 1], p) == Count(v[..k], p) + if p(v[k]) then 1 else 0
  {
    var w := v[..k + 1];
    assert w[..|w| - 1] == v[..k] && w[|w| - 1] == v[k];
  }

  lemma WithoutCount(v: seq<Row>, k: nat, p: Row -> bool)
    requires k < |v|
    ensures Count(v, p) == Count(Without(v, k), p) + if p(v[k]) then 1 else 0
  {
    hide Count;
    CountPrefix(v, k, p);
    CountConcat(v[..k], v[k + 1..], p);
    assert v == v[..k + 1] + v[k + 1..];
    CountConcat(v[..k + 1], v[k + 1..], p);
  }

  lemma {:induction false} CountOfPermutation(v: seq<Row>, w: seq<Row>, p: Row -> bool)
    requires multiset(v) == multiset(w)
    ensures Count(v, p) == Count(w, p)
  {
    if v == [] {
      assert |multiset(w)| == 0;
    } else {
      var last := |v| - 1;
      assert v[last] in multiset(w);
      var k :| 0 <= k < |w| && w[k] == v[last];
      WithoutMultiset(v, last);
      WithoutMultiset(w, k);
      CountOfPermutation(Without(v, last), Without(w, k), p);
      WithoutCount(v, last, p);
      WithoutCount(w, k, p);
    }
  }

  lemma {:induction false} CountSame(v: seq<Row>, p: Row -> bool, q: Row -> bool)
    requires forall r | r in v :: p(r) == q(r)
    ensures Count(v, p) == Count(v, q)
  {
    if v == [] {
    } else {
      var front := v[..|v| - 1];
      assert forall r | r in front :: r in v;
      CountSame(front, p, q);
    }
  }

  ghost predicate DistinctNums(v: seq<Row>) {
    forall i, j | 0 <= i < j < |v| :: v[i].num != v[j].num
  }

  lemma {:induction false} CountPositive(v: seq<Row>, p: Row -> bool, i: nat)
    requires i < |v| && p(v[i])
    ensures Count(v, p) >= 1
  {
    if i == |v| - 1 {
    } else {
      CountPositive(v[..|v| - 1], p, i);
    }
  }

  lemma {:induction false} CountWitness(v: seq<Row>, p: Row -> bool) returns (i: nat)
    requires Count(v, p) > 0
    ensures i < |v| && p(v[i])
  {
    if p(v[|v| - 1]) {
      i := |v| - 1;
    } else {
      i := CountWitness(v[..|v| - 1], p);
    }
  }

  /** No two rows have the same key. */
  ghost predicate DistinctBy(v: seq<Row>, key: Row -> int) {
    forall i, j | 0 <= i < j < |v| :: key(v[i]) != key(v[j])
  }

  lemma {:induction false} CountKeyAtMostOne(v: seq<Row>, key: Row -> int, n: int)
    requires DistinctBy(v, key)
    ensures Count(v, (r: Row) => key(r) == n) <= 1
  {
    var p := (r: Row) => key(r) == n;
    if v == [] {
    } else {
      var front := v[..|v| - 1];
      CountKeyAtMostOne(front, key, n);
      if p(v[|v| - 1]) && Count(front, p) > 0 {
        var i := CountWitness(front, p);
        assert false;
      }
    }
  }

  /** Permuting rows keeps their keys distinct. */
  lemma DistinctByKept(v: seq<Row>, w: seq<Row>, key: Row -> int)
    requires multiset(v) == multiset(w) && DistinctBy(v, key)
    ensures DistinctBy(w, key)
  {
    forall i, j | 0 <= i < j < |w|
      ensures key(w[i]) != key(w[j])
    {
      var p := (r: Row) => key(r) == key(w[i]);
      CountKeyAtMostOne(v, key, key(w[i]));
      CountOfPermutation(v, w, p);
      CountPositive(w[..j], p, i);
      CountConcat(w[..j], w[j..], p);
      assert w == w[..j] + w[j..];
      if p(w[j]) {
        CountPositive(w[j..], p, 0);
        assert false;
      }
    }
  }

  /** Permuting rows keeps their numbers distinct. */
  lemma DistinctKept(v: seq<Row>, w: seq<Row>)
    requires multiset(v) == multiset(w) && DistinctNums(v)
    ensures DistinctNums(w)
  {
    var key := (r: Row) => r.num;
    assert DistinctBy(v, key);
    DistinctByKept(v, w, key);
    assert forall i, j | 0 <= i < j < |w| :: key(w[i]) != key(w[j]);
  }

  // ---------- strictly ordered rows are determined by their set ----------

  ghost predicate Increasing(v: seq<Row>) {
    forall i, j | 0 <= i < j < |v| :: v[i].num < v[j].num
  }

  ghost predicate IncreasingBy(v: seq<Row>, key: Row -> int) {
    forall i, j | 0 <= i < j < |v| :: key(v[i]) < key(v[j])
  }

  lemma SameLast(v: seq<Row>, w: seq<Row>, key: Row -> int)
    requires IncreasingBy(v, key) && IncreasingBy(w, key) && multiset(v) == multiset(w) && v != []
    ensures |w| == |v| && v[|v| - 1] == w[|w| - 1]
  {
    assert |v| == |multiset(v)| == |multiset(w)| == |w|;
    var n := |v| - 1;
    assert v[n] in multiset(w) && w[n] in multiset(v);
    var i :| 0 <= i < |w| && w[i] == v[n];
    var j :| 0 <= j < |v| && v[j] == w[n];
  }

  /** Taking the last row off. */
  lemma FrontOf(v: seq<Row>, key: Row -> int)
    requires IncreasingBy(v, key) && v != []
    ensures var front, last := v[..|v| - 1], v[|v| - 1];
      IncreasingBy(front, key) && multiset(front) == multiset(v) - multiset{last} && v == front + [last]
  {
    var front, last := v[..|v| - 1], v[|v| - 1];
    assert v == front + [last];
    assert multiset(v) == multiset(front) + multiset{last};
  }

  lemma {:induction false} IncreasingByUnique(v: seq<Row>, w: seq<Row>, key: Row -> int)
    requires IncreasingBy(v, key) && IncreasingBy(w, key) && multiset(v) == multiset(w)
    ensures v == w
  {
    hide IncreasingBy;
    if v == [] {
      assert |multiset(w)| == 0;
    } else {
      SameLast(v, w, key);
      FrontOf(v, key);
      FrontOf(w, key);
      IncreasingByUnique(v[..|v| - 1], w[..|w| - 1], key);
    }
  }

  lemma IncreasingUnique(v: seq<Row>, w: seq<Row>)
    requires Increasing(v) && Increasing(w) && multiset(v) == multiset(w)
    ensures v == w
  {
    var key := (r: Row) => r.num;
    assert IncreasingBy(v, key) && IncreasingBy(w, key);
    IncreasingByUnique(v, w, key);
  }

  function Reversed(v: seq<Row>): (r: seq<Row>)
    ensures |r| == |v|
    ensures forall i | 0 <= i < |v| :: r[i] == v[|v| - 1 - i]
  {
    seq(|v|, i requires 0 <= i < |v| => v[|v| - 1 - i])
  }

  lemma {:induction false} ReversedIsPermutation(v: seq<Row>)
    ensures multiset(Reversed(v)) == multiset(v)
  {
    if v == [] {
    } else {
      var n := |v| - 1;
      ReversedIsPermutation(v[..n]);
      assert Reversed(v) == [v[n]] + Reversed(v[..n]);
      assert v == v[..n] + [v[n]];
    }
  }
}
