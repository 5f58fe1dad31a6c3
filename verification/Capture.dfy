/** The packet list with its column headers: rows sorted in place, and the toggles behind each header. */
module Capture {
  import opened Address
  import opened Decoder
  import opened Rows

  datatype Button = NumHeader | SrcHeader | DstHeader | ProtoHeader | LenHeader

  /** The list's state as a value. */
  datatype List = List(
    vec: seq<Row>, numFlag: bool, srcFlag: bool, dstFlag: bool, lenFlag: bool, protoNum: nat)

  ghost predicate ValidList(l: List) {
    l.protoNum < 3
  }

  const EMPTY_LIST := List([], false, false, false, false, 0)

  /** The flags after a press, and the order the press sorts by. */
  function Toggled(l: List, b: Button): List {
    match b
    case NumHeader => l.(numFlag := !l.numFlag)
    case SrcHeader => l.(srcFlag := !l.srcFlag)
    case DstHeader => l.(dstFlag := !l.dstFlag)
    case LenHeader => l.(lenFlag := !l.lenFlag)
    case ProtoHeader => l.(protoNum := (l.protoNum + 1) % 3)
  }

  function OrderOf(l: List, b: Button): Order {
    match b
    case NumHeader => ByNum(l.numFlag)
    case SrcHeader => BySrc(l.srcFlag)
    case DstHeader => ByDst(l.dstFlag)
    case LenHeader => ByLen(!l.lenFlag)
    case ProtoHeader => ByProto((l.protoNum + 1) % 3)
  }

  /** Pressing b takes list l to list m. `std::sort` is not stable, so m is one of several results. */
  ghost predicate Pressed(l: List, b: Button, m: List) {
    && m == Toggled(l, b).(vec := m.vec)
    && multiset(m.vec) == multiset(l.vec)
    && AllComparable(OrderOf(l, b), m.vec)
    && SortedBy(OrderOf(l, b), m.vec)
  }

  class Capture {
    var vec: seq<Row>
    var numFlag: bool
    var srcFlag: bool
    var dstFlag: bool
    var lenFlag: bool
    var protoNum: nat

    ghost function View(): List
      reads this
    {
      List(vec, numFlag, srcFlag, dstFlag, lenFlag, protoNum)
    }

    ghost predicate Valid()
      reads this
    {
      ValidList(View())
    }

    constructor ()
      ensures Valid() && View() == EMPTY_LIST
      ensures vec == [] && !numFlag && !srcFlag && !dstFlag && !lenFlag && protoNum == 0
    {
      vec, protoNum := [], 0;
      numFlag, srcFlag, dstFlag, lenFlag := false, false, false, false;
    }

    /** `std::sort` over the whole row vector. */
    method StdSort(o: Order)
      requires AllComparable(o, vec)
      modifies this`vec
      ensures multiset(vec) == multiset(old(vec))
      ensures AllComparable(o, vec) && SortedBy(o, vec)
    {
      var a := new Row[|vec|](i requires 0 <= i < |vec| reads this => vec[i]);
      assert a[..] == vec;
      SortInPlace(a, o);
      vec := a[..];
    }

    method UpdateMd(pkt: Row)
      modifies this`vec
      ensures View() == old(View()).(vec := old(vec) + [pkt])
    {
      vec := vec + [pkt];
    }

    method Reset()
      modifies this`vec
      ensures View() == old(View()).(vec := [])
    {
      vec := [];
    }

    method SortNum()
      requires Valid()
      modifies this`vec, this`numFlag
      ensures Valid() && Pressed(old(View()), NumHeader, View())
      ensures numFlag == !old(numFlag)
    {
      StdSort(ByNum(numFlag));
      if numFlag == true {
        numFlag := false;
      } else {
        numFlag := true;
      }
    }

    method ParseAndSort(target: Button)
      requires Valid() && target in {SrcHeader, DstHeader}
      requires AllComparable(OrderOf(View(), target), vec)
      modifies this`vec, this`srcFlag, this`dstFlag
      ensures Valid() && Pressed(old(View()), target, View())
      ensures srcFlag == if target == SrcHeader then !old(srcFlag) else old(srcFlag)
      ensures dstFlag == if target == DstHeader then !old(dstFlag) else old(dstFlag)
    {
      if target == SrcHeader {
        StdSort(BySrc(srcFlag));
        if srcFlag == true {
          srcFlag := false;
        } else {
          srcFlag := true;
        }
      } else if target == DstHeader {
        StdSort(ByDst(dstFlag));
        if dstFlag == true {
          dstFlag := false;
        } else {
          dstFlag := true;
        }
      }
    }

    method SortProto()
      requires Valid()
      modifies this`vec, this`protoNum
      ensures Valid() && Pressed(old(View()), ProtoHeader, View())
      ensures protoNum == (old(protoNum) + 1) % 3
    {
      protoNum := (protoNum + 1) % 3;
      StdSort(ByProto(protoNum));
    }

    method SortLen()
      requires Valid()
      modifies this`vec, this`lenFlag
      ensures Valid() && Pressed(old(View()), LenHeader, View())
      ensures lenFlag == !old(lenFlag)
    {
      if lenFlag == false {
        lenFlag := true;
        StdSort(ByLen(true));
      } else {
        lenFlag := false;
        StdSort(ByLen(false));
      }
    }
  }

  // ---------- the number column ----------

  lemma SortedNumsStrict(ascending: bool, v: seq<Row>)
    requires AllComparable(ByNum(ascending), v) && SortedBy(ByNum(ascending), v) && DistinctNums(v)
    ensures ascending ==> Increasing(v)
    ensures !ascending ==> Increasing(Reversed(v))
  {
    forall i, j | 0 <= i < j < |v|
      ensures if ascending then v[i].num < v[j].num else v[i].num > v[j].num
    {
      assert !Less(ByNum(ascending), v[j], v[i]);
    }
  }

  lemma ReversedTwice(v: seq<Row>)
    ensures Reversed(Reversed(v)) == v
  {
  }

  /** The order after a press of the number header depends only on the set of rows and the toggle. */
  lemma NumOrderDetermined(l: List, k: List, l': List, k': List)
    requires DistinctNums(l.vec) && multiset(l.vec) == multiset(k.vec) && l.numFlag == k.numFlag
    requires Pressed(l, NumHeader, l') && Pressed(k, NumHeader, k')
    ensures l'.vec == k'.vec
  {
    DistinctKept(l.vec, l'.vec);
    DistinctKept(l.vec, k'.vec);
    SortedNumsStrict(l.numFlag, l'.vec);
    SortedNumsStrict(k.numFlag, k'.vec);
    if l.numFlag {
      IncreasingUnique(l'.vec, k'.vec);
    } else {
      ReversedIsPermutation(l'.vec);
      ReversedIsPermutation(k'.vec);
      IncreasingUnique(Reversed(l'.vec), Reversed(k'.vec));
      ReversedTwice(l'.vec);
      ReversedTwice(k'.vec);
    }
  }

  /** Two presses in a row give exact reverses, whatever happened to the list before. */
  lemma TwoNumPressesReverse(l: List, m: List, n: List)
    requires DistinctNums(l.vec)
    requires Pressed(l, NumHeader, m) && Pressed(m, NumHeader, n)
    ensures n.vec == Reversed(m.vec)
  {
    DistinctKept(l.vec, m.vec);
    DistinctKept(m.vec, n.vec);
    SortedNumsStrict(l.numFlag, m.vec);
    SortedNumsStrict(m.numFlag, n.vec);
    ReversedIsPermutation(m.vec);
    ReversedIsPermutation(n.vec);
    if m.numFlag {
      IncreasingUnique(n.vec, Reversed(m.vec));
    } else {
      IncreasingUnique(Reversed(n.vec), m.vec);
      ReversedTwice(n.vec);
    }
  }

  // ---------- the address columns ----------

  /** Rows made from IPv4 headers: both address texts are printed addresses. */
  ghost predicate Printed(r: Row, src: Addr, dst: Addr) {
    r.src == Dotted(src) && r.dst == Dotted(dst)
  }

  ghost predicate HasAddresses(r: Row) {
    exists src: Addr, dst: Addr :: Printed(r, src, dst)
  }

  /** Rows with printed addresses can be compared by every comparator. */
  lemma AddressedComparable(o: Order, r: Row)
    requires HasAddresses(r) && (o.ByProto? ==> o.first < 3)
    ensures Comparable(o, r)
  {
    var src: Addr, dst: Addr :| Printed(r, src, dst);
    DottedRoundTrip(src);
    DottedRoundTrip(dst);
  }

  /** After a press of an address header the rows are in numeric order of the 32-bit addresses. */
  lemma AddressPressSorts(l: List, b: Button, m: List, i: nat, j: nat, x: Addr, y: Addr)
    requires b in {SrcHeader, DstHeader} && Pressed(l, b, m)
    requires i < j < |m.vec|
    requires b == SrcHeader ==> m.vec[i].src == Dotted(x) && m.vec[j].src == Dotted(y)
    requires b == DstHeader ==> m.vec[i].dst == Dotted(x) && m.vec[j].dst == Dotted(y)
    ensures if (if b == SrcHeader then l.srcFlag else l.dstFlag) then Number(x) <= Number(y)
            else Number(x) >= Number(y)
    ensures multiset(m.vec) == multiset(l.vec)
  {
    assert !Less(OrderOf(l, b), m.vec[j], m.vec[i]);
    BeforeIsNumeric(y, x);
  }

  /** The text in an address column. */
  function AddressText(r: Row, b: Button): string {
    if b == SrcHeader then r.src else r.dst
  }

  /** Rows with printed addresses, in numeric order of one column, upwards or downwards. */
  ghost predicate InAddressOrder(v: seq<Row>, b: Button, upwards: bool) {
    forall i, j, x: Addr, y: Addr {:trigger AddressText(v[i], b), AddressText(v[j], b), Dotted(x), Dotted(y)} |
      0 <= i < j < |v| && AddressText(v[i], b) == Dotted(x) && AddressText(v[j], b) == Dotted(y) ::
      if upwards then Number(x) <= Number(y) else Number(x) >= Number(y)
  }

  lemma PressInOrder(l: List, b: Button, m: List)
    requires b in {SrcHeader, DstHeader} && Pressed(l, b, m)
    ensures InAddressOrder(m.vec, b, if b == SrcHeader then l.srcFlag else l.dstFlag)
  {
    hide Pressed, Dotted, Number;
    forall i, j, x: Addr, y: Addr |
      0 <= i < j < |m.vec| && AddressText(m.vec[i], b) == Dotted(x) && AddressText(m.vec[j], b) == Dotted(y)
      ensures if (if b == SrcHeader then l.srcFlag else l.dstFlag) then Number(x) <= Number(y)
              else Number(x) >= Number(y)
    {
      AddressPressSorts(l, b, m, i, j, x, y);
    }
  }

  lemma TogglesOfPress(l: List, b: Button, m: List)
    requires b in {SrcHeader, DstHeader} && Pressed(l, b, m)
    ensures multiset(m.vec) == multiset(l.vec)
    ensures m.srcFlag == if b == SrcHeader then !l.srcFlag else l.srcFlag
    ensures m.dstFlag == if b == DstHeader then !l.dstFlag else l.dstFlag
  {
    hide AllComparable, SortedBy;
  }

  /** Two presses of one address header in a row order the rows numerically in opposite directions. */
  lemma AddressPressesOppose(l: List, b: Button, m: List, n: List)
    requires b in {SrcHeader, DstHeader} && Pressed(l, b, m) && Pressed(m, b, n)
    ensures var upwards := if b == SrcHeader then l.srcFlag else l.dstFlag;
      InAddressOrder(m.vec, b, upwards) && InAddressOrder(n.vec, b, !upwards)
  {
    PressInOrder(l, b, m);
    PressInOrder(m, b, n);
    hide InAddressOrder, Pressed;
    TogglesOfPress(l, b, m);
  }

  /** The address of a row as a number, read from its text. */
  function AddressKey(b: Button): Row -> int {
    (r: Row) =>
      var s := AddressText(r, b);
      if FourParts(s) then
        Octet(s, 0) * 0x100_0000 + Octet(s, 1) * 0x1_0000 + Octet(s, 2) * 0x100 + Octet(s, 3)
      else 0
  }

  lemma KeyIsNumber(r: Row, b: Button, x: Addr)
    requires AddressText(r, b) == Dotted(x)
    ensures AddressKey(b)(r) == Number(x)
  {
    DottedRoundTrip(x);
  }

  ghost predicate HasPrinted(r: Row, b: Button) {
    exists x: Addr :: AddressText(r, b) == Dotted(x)
  }

  /** Every row has a printed address in the column. */
  ghost predicate AllPrinted(v: seq<Row>, b: Button) {
    forall i | 0 <= i < |v| :: HasPrinted(v[i], b)
  }

  lemma PrintedKept(v: seq<Row>, w: seq<Row>, b: Button)
    requires multiset(v) == multiset(w) && AllPrinted(v, b)
    ensures AllPrinted(w, b)
  {
    hide HasPrinted;
    forall i | 0 <= i < |w|
      ensures HasPrinted(w[i], b)
    {
      assert w[i] in multiset(w);
      var k :| 0 <= k < |v| && v[k] == w[i];
    }
  }

  /** Ordered rows with distinct addresses increase strictly, in the direction of the order. */
  lemma OrderIsStrict(v: seq<Row>, b: Button, upwards: bool)
    requires AllPrinted(v, b) && InAddressOrder(v, b, upwards) && DistinctBy(v, AddressKey(b))
    ensures upwards ==> IncreasingBy(v, AddressKey(b))
    ensures !upwards ==> IncreasingBy(Reversed(v), AddressKey(b))
  {
    hide Dotted, Number, AddressKey, AddressText;
    var key := AddressKey(b);
    forall i, j | 0 <= i < j < |v|
      ensures if upwards then key(v[i]) < key(v[j]) else key(v[i]) > key(v[j])
    {
      assert HasPrinted(v[i], b) && HasPrinted(v[j], b);
      var x: Addr :| AddressText(v[i], b) == Dotted(x);
      var y: Addr :| AddressText(v[j], b) == Dotted(y);
      KeyIsNumber(v[i], b, x);
      KeyIsNumber(v[j], b, y);
    }
  }

  lemma NumberIsInjective(x: Addr, y: Addr)
    requires Number(x) == Number(y)
    ensures x == y
  {
    NumberIsLexicographic(x, y);
    NumberIsLexicographic(y, x);
  }

  lemma DistinctTextsDistinctKeys(v: seq<Row>, b: Button)
    requires AllPrinted(v, b)
    requires forall i, j | 0 <= i < j < |v| :: AddressText(v[i], b) != AddressText(v[j], b)
    ensures DistinctBy(v, AddressKey(b))
  {
    hide Dotted, Number, AddressKey, AddressText;
    var key := AddressKey(b);
    forall i, j | 0 <= i < j < |v|
      ensures key(v[i]) != key(v[j])
    {
      assert HasPrinted(v[i], b) && HasPrinted(v[j], b);
      var x: Addr :| AddressText(v[i], b) == Dotted(x);
      var y: Addr :| AddressText(v[j], b) == Dotted(y);
      KeyIsNumber(v[i], b, x);
      KeyIsNumber(v[j], b, y);
      if key(v[i]) == key(v[j]) {
        NumberIsInjective(x, y);
        assert false;
      }
    }
  }

  /** ... and when all addresses of the column differ, the second list is the exact reverse of the first. */
  lemma TwoAddressPressesReverse(l: List, b: Button, m: List, n: List)
    requires b in {SrcHeader, DstHeader} && Pressed(l, b, m) && Pressed(m, b, n)
    requires AllPrinted(l.vec, b)
    requires forall i, j | 0 <= i < j < |l.vec| :: AddressText(l.vec[i], b) != AddressText(l.vec[j], b)
    ensures n.vec == Reversed(m.vec)
  {
    DistinctTextsDistinctKeys(l.vec, b);
    hide AddressText;
    hide InAddressOrder, AllPrinted, DistinctBy, IncreasingBy, AddressKey;
    AddressPressesOppose(l, b, m, n);
    TogglesOfPress(l, b, m);
    TogglesOfPress(m, b, n);
    hide Pressed;
    var upwards, key := if b == SrcHeader then l.srcFlag else l.dstFlag, AddressKey(b);
    PrintedKept(l.vec, m.vec, b);
    PrintedKept(l.vec, n.vec, b);
    DistinctByKept(l.vec, m.vec, key);
    DistinctByKept(l.vec, n.vec, key);
    OrderIsStrict(m.vec, b, upwards);
    OrderIsStrict(n.vec, b, !upwards);
    ReversedIsPermutation(m.vec);
    ReversedIsPermutation(n.vec);
    if upwards {
      IncreasingByUnique(Reversed(n.vec), m.vec, key);
      ReversedTwice(n.vec);
    } else {
      IncreasingByUnique(n.vec, Reversed(m.vec), key);
    }
  }

  // ---------- the protocol column ----------

  function IsProto(k: nat): Row -> bool {
    (r: Row) => ProtoNum(r.proto) == k
  }

  /** Rows of one protocol, by rotated position. */
  function BlockSize(v: seq<Row>, first: nat, pos: nat): nat {
    Count(v, IsProto((first + pos) % 3))
  }

  lemma RotatedProto(proto: string, first: nat)
    requires first < 3
    ensures ProtoNum(proto) == (first + Rotated(proto, first)) % 3
    ensures ProtoNum(proto) == first % 3 <==> Rotated(proto, first) == 0
    ensures ProtoNum(proto) == (first + 1) % 3 <==> Rotated(proto, first) == 1
    ensures ProtoNum(proto) == (first + 2) % 3 <==> Rotated(proto, first) == 2
  {
  }

  lemma LastRow(v: seq<Row>, first: nat)
    requires first < 3 && v != []
    ensures var n, pos := |v| - 1, Rotated(v[|v| - 1].proto, first);
      && BlockSize(v, first, 0) == BlockSize(v[..n], first, 0) + (if pos == 0 then 1 else 0)
      && BlockSize(v, first, 1) == BlockSize(v[..n], first, 1) + (if pos == 1 then 1 else 0)
      && BlockSize(v, first, 2) == BlockSize(v[..n], first, 2) + (if pos == 2 then 1 else 0)
  {
    RotatedProto(v[|v| - 1].proto, first);
  }

  /** Every row belongs to one of the three blocks. */
  lemma {:induction false} BlocksCover(v: seq<Row>, first: nat)
    requires first < 3
    ensures |v| == BlockSize(v, first, 0) + BlockSize(v, first, 1) + BlockSize(v, first, 2)
  {
    if v == [] {
    } else {
      LastRow(v, first);
      hide BlockSize;
      BlocksCover(v[..|v| - 1], first);
    }
  }

  lemma {:induction false} SortedBlocks(v: seq<Row>, first: nat, i: nat)
    requires first < 3 && i < |v|
    requires AllComparable(ByProto(first), v) && SortedBy(ByProto(first), v)
    ensures Rotated(v[i].proto, first)
         == if i < BlockSize(v, first, 0) then 0
            else if i < BlockSize(v, first, 0) + BlockSize(v, first, 1) then 1 else 2
  {
    hide BlockSize;
    var n := |v| - 1;
    var front := v[..n];
    LastRow(v, first);
    BlocksCover(v, first);
    BlocksCover(front, first);
    if front == [] {
    } else {
      assert forall p, q | 0 <= p < q < |front| :: front[p] == v[p] && front[q] == v[q];
      SortedBlocks(front, first, if i < n then i else n - 1);
      SortedBlocks(front, first, n - 1);
      assert !Less(ByProto(first), v[n], v[n - 1]);
      assert i < n ==> !Less(ByProto(first), v[n], v[i]);
    }
  }

  /**
   After a press of the protocol header the rows form three contiguous blocks in
   cyclic TCP, UDP, ICMP order starting at the new protoNum, each as large as before.
   */
  lemma ProtoPressBlocks(l: List, m: List, i: nat)
    requires ValidList(l) && Pressed(l, ProtoHeader, m) && i < |m.vec|
    ensures var a, b := BlockSize(l.vec, m.protoNum, 0), BlockSize(l.vec, m.protoNum, 1);
      ProtoNum(m.vec[i].proto)
        == (m.protoNum + if i < a then 0 else if i < a + b then 1 else 2) % 3
    ensures forall pos: nat :: BlockSize(m.vec, m.protoNum, pos) == BlockSize(l.vec, m.protoNum, pos)
  {
    forall pos: nat
      ensures BlockSize(m.vec, m.protoNum, pos) == BlockSize(l.vec, m.protoNum, pos)
    {
      CountOfPermutation(m.vec, l.vec, IsProto((m.protoNum + pos) % 3));
    }
    SortedBlocks(m.vec, m.protoNum, i);
    RotatedProto(m.vec[i].proto, m.protoNum);
  }

  function Names(text: string): Row -> bool {
    (r: Row) => r.proto == text
  }

  /** Every row names one of the three protocols. */
  ghost predicate NamesProtocols(v: seq<Row>) {
    forall r | r in v :: r.proto in {"TCP", "UDP", "ICMP"}
  }

  /** The protocols in the order in which they are shown, by the rotation. */
  const LINEUPS: seq<seq<string>> := [["TCP", "UDP", "ICMP"], ["UDP", "ICMP", "TCP"], ["ICMP", "TCP", "UDP"]]

  lemma LineupIsRotation(first: nat, pos: nat)
    requires first < 3 && pos < 3
    ensures |LINEUPS| == 3 && |LINEUPS[first]| == 3
    ensures LINEUPS[first][pos] in {"TCP", "UDP", "ICMP"}
    ensures ProtoNum(LINEUPS[first][pos]) == (first + pos) % 3
  {
  }

  lemma TextOfNumber(text: string, other: string)
    requires text in {"TCP", "UDP", "ICMP"} && other in {"TCP", "UDP", "ICMP"}
    ensures ProtoNum(text) == ProtoNum(other) <==> text == other
  {
  }

  /** Counting the rows of a block is counting the rows that carry its text. */
  lemma BlockSizeByText(v: seq<Row>, first: nat, pos: nat)
    requires NamesProtocols(v) && first < 3 && pos < 3
    ensures |LINEUPS| == 3 && |LINEUPS[first]| == 3
    ensures BlockSize(v, first, pos) == Count(v, Names(LINEUPS[first][pos]))
  {
    LineupIsRotation(first, pos);
    var text := LINEUPS[first][pos];
    var p, q := IsProto((first + pos) % 3), Names(text);
    forall r | r in v
      ensures p(r) == q(r)
    {
      TextOfNumber(r.proto, text);
    }
    CountSame(v, p, q);
  }

  lemma TextAt(v: seq<Row>, first: nat, pos: nat, r: Row)
    requires NamesProtocols(v) && r in v && first < 3 && pos < 3
    requires ProtoNum(r.proto) == (first + pos) % 3
    ensures |LINEUPS| == 3 && |LINEUPS[first]| == 3 && r.proto == LINEUPS[first][pos]
  {
    LineupIsRotation(first, pos);
    TextOfNumber(r.proto, LINEUPS[first][pos]);
  }

  lemma NamesKept(v: seq<Row>, w: seq<Row>)
    requires multiset(v) == multiset(w) && NamesProtocols(v)
    ensures NamesProtocols(w)
  {
    forall r | r in w
      ensures r.proto in {"TCP", "UDP", "ICMP"}
    {
      assert r in multiset(w);
      assert r in v;
    }
  }

  /**
   A press of the protocol header shows three blocks, in the order of the line-up of the new rotation; each block has
   as many rows as carried its text before.
   */
  lemma ProtoPressLineup(l: List, m: List, i: nat)
    requires ValidList(l) && NamesProtocols(l.vec) && Pressed(l, ProtoHeader, m) && i < |m.vec|
    ensures m.protoNum == (l.protoNum + 1) % 3
    ensures |LINEUPS| == 3 && |LINEUPS[m.protoNum]| == 3
    ensures var lineup := LINEUPS[m.protoNum];
      var a, b, c := Count(l.vec, Names(lineup[0])), Count(l.vec, Names(lineup[1])), Count(l.vec, Names(lineup[2]));
      && m.vec[i].proto == lineup[if i < a then 0 else if i < a + b then 1 else 2]
      && |m.vec| == a + b + c
  {
    hide BlockSize, SortedBy, AllComparable;
    ProtoPressBlocks(l, m, i);
    BlocksCover(m.vec, m.protoNum);
    BlockSizeByText(l.vec, m.protoNum, 0);
    BlockSizeByText(l.vec, m.protoNum, 1);
    BlockSizeByText(l.vec, m.protoNum, 2);
    var a, b := BlockSize(l.vec, m.protoNum, 0), BlockSize(l.vec, m.protoNum, 1);
    NamesKept(l.vec, m.vec);
    TextAt(m.vec, m.protoNum, if i < a then 0 else if i < a + b then 1 else 2, m.vec[i]);
  }

  /** The first row shown is one of protocol k. */
  predicate Leads(m: List, k: nat) {
    m.vec != [] && ProtoNum(m.vec[0].proto) == k
  }

  lemma NoRows(v: seq<Row>, p: Row -> bool)
    requires |multiset(v)| == 0
    ensures Count(v, p) == 0
  {
    assert |v| == |multiset(v)|;
  }

  lemma LeaderAfterPress(l: List, m: List)
    requires ValidList(l) && Pressed(l, ProtoHeader, m)
    ensures Count(l.vec, IsProto(m.protoNum)) > 0 ==> Leads(m, m.protoNum)
  {
    hide SortedBy, AllComparable, Count;
    if m.vec == [] {
      NoRows(l.vec, IsProto(m.protoNum));
    } else {
      ProtoPressBlocks(l, m, 0);
    }
  }

  lemma OneStep(p: nat)
    requires p < 3
    ensures (p + 1) % 3 == if p == 2 then 0 else p + 1
  {
  }

  lemma ThreeSteps(p: nat, p1: nat, p2: nat, p3: nat)
    requires p < 3 && p1 == (p + 1) % 3 && p2 == (p1 + 1) % 3 && p3 == (p2 + 1) % 3
    ensures multiset{p1, p2, p3} == multiset{0, 1, 2} && p3 == p
  {
    OneStep(p);
    OneStep(p1);
    OneStep(p2);
  }

  /** Over three presses in a row each protocol present leads exactly once, and the rotation is back where it was. */
  lemma ThreeProtoPresses(l: List, m1: List, m2: List, m3: List)
    requires ValidList(l)
    requires Pressed(l, ProtoHeader, m1) && Pressed(m1, ProtoHeader, m2) && Pressed(m2, ProtoHeader, m3)
    ensures multiset{m1.protoNum, m2.protoNum, m3.protoNum} == multiset{0, 1, 2}
    ensures m3.protoNum == l.protoNum
    ensures Count(l.vec, IsProto(m1.protoNum)) > 0 ==> Leads(m1, m1.protoNum)
    ensures Count(l.vec, IsProto(m2.protoNum)) > 0 ==> Leads(m2, m2.protoNum)
    ensures Count(l.vec, IsProto(m3.protoNum)) > 0 ==> Leads(m3, m3.protoNum)
  {
    ThreeSteps(l.protoNum, m1.protoNum, m2.protoNum, m3.protoNum);
    LeaderAfterPress(l, m1);
    LeaderAfterPress(m1, m2);
    LeaderAfterPress(m2, m3);
    CountOfPermutation(m1.vec, l.vec, IsProto(m2.protoNum));
    CountOfPermutation(m2.vec, l.vec, IsProto(m3.protoNum));
  }

  // ---------- the length column ----------

  lemma LenPressSorts(l: List, m: List, i: nat, j: nat)
    requires Pressed(l, LenHeader, m) && i < j < |m.vec|
    ensures if m.lenFlag then m.vec[i].len <= m.vec[j].len else m.vec[i].len >= m.vec[j].len
  {
    assert !Less(OrderOf(l, LenHeader), m.vec[j], m.vec[i]);
  }

  // ---------- histories of presses ----------

  /** ls[0], ls[1], ... are the states of the list between the presses bs[0], bs[1], ... */
  ghost predicate History(ls: seq<List>, bs: seq<Button>) {
    && |ls| == |bs| + 1
    && forall i | 0 <= i < |bs| :: Pressed(ls[i], bs[i], ls[i + 1])
  }

  function Presses(bs: seq<Button>, b: Button): nat {
    if bs == [] then 0 else Presses(bs[..|bs| - 1], b) + if bs[|bs| - 1] == b then 1 else 0
  }

  lemma FrontHistory(ls: seq<List>, bs: seq<Button>)
    requires History(ls, bs) && bs != []
    ensures var n := |bs| - 1;
      && History(ls[..n + 1], bs[..n]) && Pressed(ls[n], bs[n], ls[n + 1])
      && |bs[..n]| == n && ls[..n + 1][0] == ls[0] && ls[..n + 1][n] == ls[n]
  {
    hide Pressed;
  }

  lemma {:induction false} HistoryPermutes(ls: seq<List>, bs: seq<Button>)
    requires History(ls, bs)
    ensures multiset(ls[|bs|].vec) == multiset(ls[0].vec)
  {
    if bs == [] {
    } else {
      var n := |bs| - 1;
      FrontHistory(ls, bs);
      hide History, AllComparable, SortedBy;
      HistoryPermutes(ls[..n + 1], bs[..n]);
    }
  }

  /** The rotation after a number of turns. */
  function Turned(p: nat, turns: nat): nat {
    (p + turns) % 3
  }

  /** A two-way toggle after a number of flips. */
  predicate Flipped(flag: bool, flips: nat) {
    flag == (flips % 2 == 0)
  }

  lemma TurnStep(l: List, b: Button, m: List, p: nat, turns: nat)
    requires Pressed(l, b, m) && l.protoNum == Turned(p, turns)
    ensures m.protoNum == Turned(p, if b == ProtoHeader then turns + 1 else turns)
  {
    hide AllComparable, SortedBy;
  }

  /** The toggle of a column header. */
  predicate ToggleOf(l: List, b: Button)
    requires b != ProtoHeader
  {
    match b
    case NumHeader => l.numFlag
    case SrcHeader => l.srcFlag
    case DstHeader => l.dstFlag
    case LenHeader => l.lenFlag
  }

  lemma FlipStep(l: List, b: Button, m: List, header: Button, flag: bool, flips: nat)
    requires Pressed(l, b, m) && header != ProtoHeader && ToggleOf(l, header) == Flipped(flag, flips)
    ensures ToggleOf(m, header) == Flipped(flag, if b == header then flips + 1 else flips)
  {
    hide AllComparable, SortedBy;
  }

  lemma PressesStep(bs: seq<Button>, b: Button)
    requires bs != []
    ensures var n := |bs| - 1;
      Presses(bs, b) == if bs[n] == b then Presses(bs[..n], b) + 1 else Presses(bs[..n], b)
  {
  }

  lemma {:induction false} HistoryTurnsRotation(ls: seq<List>, bs: seq<Button>)
    requires History(ls, bs) && ValidList(ls[0])
    ensures ls[|bs|].protoNum == Turned(ls[0].protoNum, Presses(bs, ProtoHeader))
  {
    if bs == [] {
    } else {
      var n := |bs| - 1;
      FrontHistory(ls, bs);
      PressesStep(bs, ProtoHeader);
      hide History, Pressed, Presses, Turned;
      HistoryTurnsRotation(ls[..n + 1], bs[..n]);
      TurnStep(ls[n], bs[n], ls[n + 1], ls[0].protoNum, Presses(bs[..n], ProtoHeader));
    }
  }

  lemma {:induction false} HistoryFlipsToggle(ls: seq<List>, bs: seq<Button>, header: Button)
    requires History(ls, bs) && header != ProtoHeader
    ensures ToggleOf(ls[|bs|], header) == Flipped(ToggleOf(ls[0], header), Presses(bs, header))
  {
    if bs == [] {
    } else {
      var n := |bs| - 1;
      FrontHistory(ls, bs);
      PressesStep(bs, header);
      hide History, Pressed, Presses, Flipped, ToggleOf;
      HistoryFlipsToggle(ls[..n + 1], bs[..n], header);
      FlipStep(ls[n], bs[n], ls[n + 1], header, ToggleOf(ls[0], header), Presses(bs[..n], header));
    }
  }

  /** Any history permutes the rows, and turns the rotation and flips each toggle once per press of its own header. */
  lemma HistoryKeepsRows(ls: seq<List>, bs: seq<Button>)
    requires History(ls, bs) && ValidList(ls[0])
    ensures multiset(ls[|bs|].vec) == multiset(ls[0].vec)
    ensures ls[|bs|].protoNum == (ls[0].protoNum + Presses(bs, ProtoHeader)) % 3
    ensures ls[|bs|].numFlag == (ls[0].numFlag == (Presses(bs, NumHeader) % 2 == 0))
    ensures ls[|bs|].srcFlag == (ls[0].srcFlag == (Presses(bs, SrcHeader) % 2 == 0))
    ensures ls[|bs|].dstFlag == (ls[0].dstFlag == (Presses(bs, DstHeader) % 2 == 0))
    ensures ls[|bs|].lenFlag == (ls[0].lenFlag == (Presses(bs, LenHeader) % 2 == 0))
  {
    hide Presses, History;
    HistoryPermutes(ls, bs);
    HistoryTurnsRotation(ls, bs);
    HistoryFlipsToggle(ls, bs, NumHeader);
    HistoryFlipsToggle(ls, bs, SrcHeader);
    HistoryFlipsToggle(ls, bs, DstHeader);
    HistoryFlipsToggle(ls, bs, LenHeader);
  }

  /**
   Two lists of the same rows, after whatever presses, show the same order once the number header is pressed with the
   same toggle.
   */
  lemma NumOrderAfterAnyHistory(ls: seq<List>, bs: seq<Button>, ks: seq<List>, cs: seq<Button>, l': List, k': List)
    requires History(ls, bs) && History(ks, cs) && ValidList(ls[0]) && ValidList(ks[0])
    requires multiset(ls[0].vec) == multiset(ks[0].vec) && DistinctNums(ls[0].vec)
    requires ls[|bs|].numFlag == ks[|cs|].numFlag
    requires Pressed(ls[|bs|], NumHeader, l') && Pressed(ks[|cs|], NumHeader, k')
    ensures l'.vec == k'.vec
  {
    HistoryKeepsRows(ls, bs);
    HistoryKeepsRows(ks, cs);
    DistinctKept(ls[0].vec, ls[|bs|].vec);
    NumOrderDetermined(ls[|bs|], ks[|cs|], l', k');
  }
}
