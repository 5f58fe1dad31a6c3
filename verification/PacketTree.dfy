/** The detail tree of one packet: the lookup by number, the texts and the shape of the tree that is built. */
module PacketTree {
  import opened Bytes
  import opened Numerals
  import opened Decoder
  import opened HeaderReads
  import opened Checksum
  import opened Address
  import opened MacAddress
  import opened Records
  import opened Session
  import opened TreeShape
  import opened Tree

  // ---------- the packet shown ----------

  /** The bytes the tree is built from; a number that is not stored leaves them empty. */
  function BytesAt(ds: seq<Dump>, idx: int): seq<byte> {
    match Find(ds, idx)
    case None => []
    case Some(d) => d.data
  }

  // ---------- the checksum status ----------

  /** The IPv4 header of a frame, options included. */
  function HeaderOf(b: seq<byte>): (h: seq<byte>)
    requires Ipv4Framed(b)
    ensures 20 <= |h| <= 60 && |h| % 2 == 0 && h[0] % 16 >= 5
    ensures U16(h, 10) == U16(b, 24)
  {
    b[ETHER_LEN..Transport(b)]
  }

  /** The status of a framed packet is Good exactly when its check field is congruent modulo 65535 to the proper one. */
  lemma StatusGoodIff(b: seq<byte>)
    requires Ipv4Framed(b)
    ensures CommonRead(b).Some?
    ensures CommonRead(b).value.status
         == if U16(b, 24) % MAX_WORD == Proper(HeaderOf(b)) % MAX_WORD then "Good" else "Bad"
  {
    CommonInside(b);
    hide CommonRead, Good, Proper;
    GoodIff(HeaderOf(b));
  }

  /** The owners of items 1, 2, ...: Ethernet with its fields, then IPv4 with its fields. */
  const COMMON: seq<nat> := [0, 1, 1, 1, 0, 5, 5, 5, 8, 8, 5, 5, 5, 13, 13, 13, 5, 5, 5, 5, 5, 5]

  // ---------- the texts ----------

  function ProtocolText(proto: byte): string {
    match proto
    case 6 => "TCP (6)"
    case 17 => "UDP (17)"
    case 1 => "ICMP (1)"
    case _ => ""
  }

  function EtherTypeText(kind: nat): string {
    match kind
    case 0x0800 => "Type: IPv4 (0x0800)"
    case 0x86dd => "Type: IPv6 (0x086DD)"
    case 0x0806 => "Type: ARP (0x0806)"
    case _ => ""
  }

  /** The line of the Ethernet item: it names two addresses as source and destination. */
  function EthernetLine(src: seq<byte>, dst: seq<byte>): string {
    "Ethernet II,    Src: " + MacText(src) + ",    Dst : " + MacText(dst)
  }

  /** The texts of the Ethernet and IPv4 items that are not tables of labels. */
  function CommonTitle(d: Detail, caption: nat -> string, k: nat): string {
    match k
    case 0 => EthernetLine(d.dstMac, d.srcMac)
    case 1 => "Destination : (" + MacText(d.dstMac) + ")"
    case 2 => "Source : (" + MacText(d.srcMac) + ")"
    case 3 => EtherTypeText(d.etherType)
    case 4 =>
      "Internet Protocol Version " + Dec(d.version) + ",    Src: " + Dotted(d.src) + ",    Dst: " + Dotted(d.dst)
    case 5 => "Version: " + Dec(d.version)
    case 6 => "Header Length: " + Dec(d.ihl * 4) + "    bytes (" + Dec(d.ihl) + ")"
    case 10 => "Total Length: " + Dec(d.totalLen)
    case 11 => "Identification: 0x" + HexPadded(d.id, 4) + " (" + Dec(d.id) + ")"
    case 16 => "Time to Live: " + Dec(d.ttl)
    case 17 => "Protocol: " + ProtocolText(d.proto)
    case 18 => "Header Checksum: 0x" + HexPadded(d.check, 4) + " [" + d.status + "]"
    case 19 => "[Header checksum status: " + d.status + "]"
    case 20 => "Source Address: " + Dotted(d.src)
    case 21 => "Destination Address: " + Dotted(d.dst)
    case _ => caption(k)
  }

  /** Two lines with different addresses differ. */
  lemma EthernetLineReadable(a: seq<byte>, b: seq<byte>, c: seq<byte>, d: seq<byte>)
    requires |a| == |b| == |c| == |d| == MAC_LEN
    ensures EthernetLine(a, b) == EthernetLine(c, d) <==> a == c && b == d
  {
    hide MacText, ReadMac;
    MacReadable(a);
    MacReadable(b);
    MacReadable(c);
    MacReadable(d);
    var x, y := EthernetLine(a, b), EthernetLine(c, d);
    assert x[21..38] == MacText(a) && x[49..] == MacText(b);
    assert y[21..38] == MacText(c) && y[49..] == MacText(d);
  }

  /** The line names the source as source exactly when both addresses are the same: the program passes them swapped. */
  lemma EthernetLineIsRightIff(b: seq<byte>, caption: nat -> string)
    requires CommonRead(b).Some?
    ensures var d := CommonRead(b).value;
      CommonTitle(d, caption, 0) == EthernetLine(d.srcMac, d.dstMac) <==> d.srcMac == d.dstMac
  {
    ReadSpanInside(b, 0, 6);
    ReadSpanInside(b, 6, 6);
    hide ReadSpan, EthernetLine, StatusOf, ReadAddr;
    var d := CommonRead(b).value;
    EthernetLineReadable(d.dstMac, d.srcMac, d.srcMac, d.dstMac);
  }

  /** The texts of the transport items, counted from the layer's own; the flag rows are a table of labels. */
  function LayerTitle(l: Layer, caption: nat -> string, j: nat): string {
    match l
    case TcpLayer(src, dst, sequence, ackSeq, len, words, _, _, window) => (
      match j
      case 0 =>
        "Transmission Control Protocol, Src Port: " + Dec(src) + ", Dst Port: " + Dec(dst) + ", Seq: " + Dec(sequence)
        + ", Ack: " + Dec(ackSeq) + ", Len: " + Signed(len)
      case 1 => "Source Port: " + Dec(src)
      case 2 => "Destination Port: " + Dec(dst)
      case 3 => "[Tcp Segment Len: " + Signed(len) + "]"
      case 4 => "Sequence Number: " + Dec(sequence)
      case 5 => "Acknowledgment Number: " + Dec(ackSeq)
      case 6 => "Header Length: " + Dec(words * 4)
      case 17 => "Window: " + Dec(window)
      case _ => caption(|COMMON| + j))
    case UdpLayer(src, dst, len) => (
      match j
      case 0 => "User Datagram Protocol, Src Prot: " + Dec(src) + ",    Dst Port: " + Dec(dst)
      case 1 => "Source Port: " + Dec(src)
      case 2 => "Destination Port: " + Dec(dst)
      case _ => "Length: " + Signed(len))
    case IcmpLayer(kind, code) => (
      match j
      case 0 => "Internet Control Message Protocol"
      case 1 => IcmpTypeText(kind)
      case _ => "code: " + Dec(code))
    case NoLayer => ""
  }

  function Title(d: Detail, caption: nat -> string, k: nat): string {
    if k < |COMMON| then CommonTitle(d, caption, k) else LayerTitle(d.layer, caption, k - |COMMON|)
  }

  // ---------- the shape ----------

  /** The owners of the items of each transport layer, in the same numbering. */
  const TCP_PART: seq<nat> := [0, 23, 23, 23, 23, 23, 23, 23, 30, 30, 30, 30, 30, 30, 30, 30, 30, 23]

  const UDP_PART: seq<nat> := [0, 23, 23, 23]

  const ICMP_PART: seq<nat> := [0, 23, 23]

  function Part(l: Layer): seq<nat> {
    match l
    case TcpLayer(_, _, _, _, _, _, _, _, _) => TCP_PART
    case UdpLayer(_, _, _) => UDP_PART
    case IcmpLayer(_, _) => ICMP_PART
    case NoLayer => []
  }

  function Owners(l: Layer): seq<nat> {
    COMMON + Part(l)
  }

  /** The parent an item is constructed with: its owner, except that the ICMP code item is given the root. */
  function Declared(l: Layer, k: nat): nat
    requires k < |Owners(l)|
  {
    if l.IcmpLayer? && k == 24 then 0 else Owners(l)[k]
  }

  function Script(d: Detail, caption: nat -> string): seq<Step> {
    seq(|Owners(d.layer)|,
        k requires 0 <= k < |Owners(d.layer)| => Step(Title(d, caption, k), Declared(d.layer, k), Owners(d.layer)[k]))
  }

  lemma OwnersEarlier(l: Layer, k: nat)
    requires k < |Owners(l)|
    ensures Owners(l)[k] <= k
    ensures Owners(l)[k] == 0 <==> k in {0, 4, 22}
  {
    if k < |COMMON| {
      assert Owners(l)[k] == COMMON[k];
    } else {
      assert Owners(l)[k] == Part(l)[k - |COMMON|];
    }
  }

  lemma ScriptIsValid(d: Detail, caption: nat -> string)
    ensures ValidScript(Script(d, caption))
  {
    hide Owners, Title;
    var script := Script(d, caption);
    forall k | 0 <= k < |script|
      ensures script[k].declared <= k && script[k].owner <= k
    {
      OwnersEarlier(d.layer, k);
      assert script[k] == Step(Title(d, caption, k), Declared(d.layer, k), Owners(d.layer)[k]);
    }
  }

  lemma CodeItem(l: Layer)
    requires l.IcmpLayer?
    ensures |Owners(l)| == 25 && Owners(l)[24] == 23 && Declared(l, 24) == 0
  {
  }

  /** The items of a packet's tree, in order of creation, the root first. */
  ghost predicate BuiltFrom(items: seq<TreeItem>, d: Detail, caption: nat -> string)
    reads items
  {
    && ValidScript(Script(d, caption)) && |items| == |Owners(d.layer)| + 1 && NoDuplicates(items)
    && Follows(items, Script(d, caption), |Owners(d.layer)|)
  }

  lemma ItemIs(items: seq<TreeItem>, d: Detail, caption: nat -> string, k: nat)
    requires BuiltFrom(items, d, caption) && 0 < k < |items|
    ensures |items| == |Owners(d.layer)| + 1
    ensures Owners(d.layer)[k - 1] < |items| && items[k].parent == items[Owners(d.layer)[k - 1]]
    ensures items[k].title == Title(d, caption, k - 1)
  {
    hide Owners, OwnedBy, Title;
    OwnersEarlier(d.layer, k - 1);
    var step := Script(d, caption)[k - 1];
    assert step.owner == Owners(d.layer)[k - 1] && step.title == Title(d, caption, k - 1);
  }

  /** How many items there are: the root, 4 of Ethernet, 18 of IPv4 and those of the transport layer. */
  lemma ItemCount(items: seq<TreeItem>, d: Detail, caption: nat -> string)
    requires BuiltFrom(items, d, caption)
    ensures |items| == 1 + 4 + 18 + match d.layer
      case TcpLayer(_, _, _, _, _, _, _, _, _) => 18
      case UdpLayer(_, _, _) => 4
      case IcmpLayer(_, _) => 3
      case NoLayer => 0
  {
    hide Follows, Script;
  }

  lemma OwnerOf(l: Layer, k: nat)
    requires 0 < k <= |Owners(l)|
    ensures Owners(l)[k - 1] == if k in {1, 5, 23} then 0
      else if 2 <= k <= 4 then 1
      else if k in {9, 10} then 8
      else if 14 <= k <= 16 then 13
      else if k <= 22 then 5
      else if l.TcpLayer? && 31 <= k <= 39 then 30
      else 23
  {
    if k <= |COMMON| {
      assert Owners(l)[k - 1] == COMMON[k - 1];
    } else {
      assert Owners(l)[k - 1] == Part(l)[k - 1 - |COMMON|];
    }
  }

  /**
   Where each item hangs: the three layers (1, 5, 23) below the root, the fields of a layer below it, the two parts of
   the type of service (9, 10) below 8, the three IPv4 flags (14 to 16) below 13, and the TCP flag rows (31 to 39)
   below 30. The ICMP code item (25) hangs below its layer, though it is constructed with the root as its parent.
   */
  lemma LayersBelowRoot(d: Detail, caption: nat -> string, items: seq<TreeItem>, k: nat)
    requires BuiltFrom(items, d, caption) && 0 < k < |items|
    ensures 23 <= |items|
    ensures items[k].parent == (
      if k in {1, 5, 23} then items[0]
      else if 2 <= k <= 4 then items[1]
      else if k in {9, 10} then items[8]
      else if 14 <= k <= 16 then items[13]
      else if k <= 22 then items[5]
      else if d.layer.TcpLayer? && 31 <= k <= 39 then items[30]
      else items[23])
    ensures d.layer.IcmpLayer? && k == 25 ==> Declared(d.layer, k - 1) == 0
  {
    hide BuiltFrom, Owners, Declared;
    ItemIs(items, d, caption, k);
    ItemCount(items, d, caption);
    OwnerOf(d.layer, k);
    if d.layer.IcmpLayer? && k == 25 {
      CodeItem(d.layer);
    }
  }

  /**
   start_tree_md: a new root replaces the old tree, the packet is looked up and read, and its items are added one by
   one. The result says whether every read stayed inside the stored bytes.
   */
  method StartTreeMd(p: Pcap, m: TreeModel, idx: int, caption: nat -> string,
                     ghost oldItems: set<TreeItem>, ghost oldDepth: Depths)
    returns (inside: bool, items: seq<TreeItem>, deleted: seq<TreeItem>, ghost depth: Depths)
    requires m.root != null ==> HeapTree(m.root, oldItems, oldDepth)
    modifies m
    ensures NoDuplicates(deleted)
    ensures old(m.root) != null ==> forall n: TreeItem | old(allocated(n)) :: n in deleted <==> n in oldItems
    ensures old(m.root) == null ==> deleted == []
    ensures items != [] && m.root == items[0] && NoDuplicates(items) && fresh(SetOf(items))
    ensures Shows(m, SetOf(items), depth)
    ensures inside == TreeRead(BytesAt(p.vecDump, idx)).Some?
    ensures !inside ==> items == [m.root]
    ensures inside ==> BuiltFrom(items, TreeRead(BytesAt(p.vecDump, idx)).value, caption)
  {
    hide Owners, IsTree, OwnedBy, TreeRead, Title, Find;
    var root := new TreeItem("root", null);
    deleted := m.SetPacketTree(root, oldItems, oldDepth);
    FreshItemIsTree(root);
    items, depth := [root], map[root := 0];
    assert SetOf(items) == {root};
    var found := p.Lookup(idx);
    var data := if found.None? then [] else found.value.data;
    var detail := ReadTree(data);
    if detail.None? {
      return false, items, deleted, depth;
    }
    ScriptIsValid(detail.value, caption);
    items, depth := Build(root, Script(detail.value, caption));
    assert SetOf(items) == SetOf(items) - {root} + {root};
    return true, items, deleted, depth;
  }
}
