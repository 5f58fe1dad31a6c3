/** The texts of a packet's tree, item by item, against the values a frame was built from and those its row shows. */
module TreeTexts {
  import opened Wrappers
  import opened Bytes
  import opened Numerals
  import opened Decoder
  import opened HeaderReads
  import opened FrameLayout
  import opened FrameDetail
  import opened Address
  import opened MacAddress
  import opened Tree
  import opened PacketTree

  // ---------- what the items say ----------

  /** The Ethernet items of a tree say these addresses; the summary line has them the wrong way round. */
  ghost predicate SaysEthernet(items: seq<TreeItem>, dst: seq<byte>, src: seq<byte>)
    requires |items| >= 23
  {
    && items[1].title == "Ethernet II,    Src: " + MacText(dst) + ",    Dst : " + MacText(src)
    && items[2].title == "Destination : (" + MacText(dst) + ")"
    && items[3].title == "Source : (" + MacText(src) + ")"
    && items[4].title == "Type: IPv4 (0x0800)"
  }

  ghost predicate NamesProtocol(proto: byte, name: string) {
    || (proto == 6 && name == "TCP (6)")
    || (proto == 17 && name == "UDP (17)")
    || (proto == 1 && name == "ICMP (1)")
  }

  /** The IPv4 items say these values; words is the header length in 32-bit words. */
  ghost predicate SaysIp(items: seq<TreeItem>, version: nat, words: nat, totalLen: nat, id: nat, ttl: nat,
                         proto: string, check: nat, status: string, src: Addr, dst: Addr)
    requires |items| >= 23
  {
    && items[5].title
       == "Internet Protocol Version " + Dec(version) + ",    Src: " + Dotted(src) + ",    Dst: " + Dotted(dst)
    && items[6].title == "Version: " + Dec(version)
    && items[7].title == "Header Length: " + Dec(words * 4) + "    bytes (" + Dec(words) + ")"
    && items[11].title == "Total Length: " + Dec(totalLen)
    && items[12].title == "Identification: 0x" + HexPadded(id, 4) + " (" + Dec(id) + ")"
    && items[17].title == "Time to Live: " + Dec(ttl)
    && items[18].title == "Protocol: " + proto
    && items[19].title == "Header Checksum: 0x" + HexPadded(check, 4) + " [" + status + "]"
    && items[20].title == "[Header checksum status: " + status + "]"
    && items[21].title == "Source Address: " + Dotted(src)
    && items[22].title == "Destination Address: " + Dotted(dst)
  }

  ghost predicate SaysTcp(items: seq<TreeItem>, src: nat, dst: nat, sequence: nat, ackSeq: nat, len: int, window: nat) {
    && |items| == 41
    && items[23].title
       == "Transmission Control Protocol, Src Port: " + Dec(src) + ", Dst Port: " + Dec(dst) + ", Seq: " + Dec(sequence)
          + ", Ack: " + Dec(ackSeq) + ", Len: " + Signed(len)
    && items[24].title == "Source Port: " + Dec(src)
    && items[25].title == "Destination Port: " + Dec(dst)
    && items[26].title == "[Tcp Segment Len: " + Signed(len) + "]"
    && items[27].title == "Sequence Number: " + Dec(sequence)
    && items[28].title == "Acknowledgment Number: " + Dec(ackSeq)
    && items[40].title == "Window: " + Dec(window)
  }

  ghost predicate SaysUdp(items: seq<TreeItem>, src: nat, dst: nat, len: int) {
    && |items| == 27
    && items[23].title == "User Datagram Protocol, Src Prot: " + Dec(src) + ",    Dst Port: " + Dec(dst)
    && items[24].title == "Source Port: " + Dec(src)
    && items[25].title == "Destination Port: " + Dec(dst)
    && items[26].title == "Length: " + Signed(len)
  }

  /** The names of the message types shown, in full. */
  ghost predicate MessageName(kind: byte, name: string) {
    name == match kind
      case 0 => "Echo Reply"
      case 3 => "Destination Unreachable"
      case 5 => "Redirect"
      case 8 => "Echo Request"
      case 11 => "Time Exceeded"
      case _ => ""
  }

  ghost predicate SaysIcmp(items: seq<TreeItem>, kind: byte, code: byte) {
    && |items| == 26
    && items[23].title == "Internet Control Message Protocol"
    && MessageName(kind, items[24].title)
    && items[25].title == "code: " + Dec(code)
  }

  // ---------- a tree says what was read ----------

  lemma SomeItems(items: seq<TreeItem>, d: Detail, caption: nat -> string)
    requires BuiltFrom(items, d, caption)
    ensures |items| >= 23
    ensures forall k | 0 < k < |items| :: items[k].title == Title(d, caption, k - 1)
  {
    ItemCount(items, d, caption);
    hide BuiltFrom, Title;
    forall k | 0 < k < |items|
      ensures items[k].title == Title(d, caption, k - 1)
    {
      ItemIs(items, d, caption, k);
    }
  }

  lemma SaysEthernetAndIp(items: seq<TreeItem>, d: Detail, caption: nat -> string, name: string)
    requires BuiltFrom(items, d, caption) && d.etherType == 0x0800
    requires NamesProtocol(d.proto, name)
    ensures |items| >= 23
    ensures SaysEthernet(items, d.dstMac, d.srcMac)
    ensures SaysIp(items, d.version, d.ihl, d.totalLen, d.id, d.ttl, name, d.check, d.status, d.src, d.dst)
  {
    hide BuiltFrom, Dec, HexPadded, Dotted, MacText, LayerTitle;
    SomeItems(items, d, caption);
  }

  lemma TcpSays(items: seq<TreeItem>, d: Detail, caption: nat -> string)
    requires BuiltFrom(items, d, caption) && d.layer.TcpLayer?
    ensures var l := d.layer;
      && SaysTcp(items, l.src, l.dst, l.sequence, l.ackSeq, l.len, l.window)
      && items[29].title == "Header Length: " + Dec(l.words * 4)
  {
    ItemCount(items, d, caption);
    hide BuiltFrom, Dec, Signed, CommonTitle;
    SomeItems(items, d, caption);
  }

  lemma UdpSays(items: seq<TreeItem>, d: Detail, caption: nat -> string)
    requires BuiltFrom(items, d, caption) && d.layer.UdpLayer?
    ensures SaysUdp(items, d.layer.src, d.layer.dst, d.layer.len)
  {
    ItemCount(items, d, caption);
    hide BuiltFrom, Dec, Signed, CommonTitle;
    SomeItems(items, d, caption);
  }

  lemma IcmpSays(items: seq<TreeItem>, d: Detail, caption: nat -> string)
    requires BuiltFrom(items, d, caption) && d.layer.IcmpLayer?
    ensures SaysIcmp(items, d.layer.kind, d.layer.code)
  {
    ItemCount(items, d, caption);
    hide BuiltFrom, Dec, Signed, CommonTitle;
    SomeItems(items, d, caption);
  }

  lemma SaysLayer(items: seq<TreeItem>, d: Detail, caption: nat -> string)
    requires BuiltFrom(items, d, caption)
    ensures match d.layer
      case TcpLayer(src, dst, sequence, ackSeq, len, words, _, _, window) =>
        && SaysTcp(items, src, dst, sequence, ackSeq, len, window)
        && items[29].title == "Header Length: " + Dec(words * 4)
      case UdpLayer(src, dst, len) => SaysUdp(items, src, dst, len)
      case IcmpLayer(kind, code) => SaysIcmp(items, kind, code)
      case NoLayer => true
  {
    hide BuiltFrom, SaysTcp, SaysUdp, SaysIcmp;
    match d.layer
    case TcpLayer(_, _, _, _, _, _, _, _, _) => TcpSays(items, d, caption);
    case UdpLayer(_, _, _) => UdpSays(items, d, caption);
    case IcmpLayer(_, _) => IcmpSays(items, d, caption);
    case NoLayer =>
  }

  // ---------- laid out frames ----------

  lemma AboveTheLayer(b: seq<byte>, d: Detail)
    requires TreeRead(b) == Some(d)
    ensures CommonRead(b).Some? && d == CommonRead(b).value.(layer := d.layer)
  {
    hide CommonRead, LayerRead;
  }

  lemma DetailOfFrame(macs: seq<byte>, h: IpHeader, proto: byte, transport: seq<byte>, d: Detail)
    requires |macs| == 12 && ValidIp(h) && TreeRead(Frame(macs, h, proto, transport)) == Some(d)
    ensures d.dstMac == macs[..6] && d.srcMac == macs[6..] && d.etherType == 0x0800
    ensures d.version == h.version && d.ihl == IpWords(h) && d.totalLen == h.totalLen && d.id == h.id
    ensures d.ttl == h.ttl && d.proto == proto && d.check == h.check && d.src == h.src && d.dst == h.dst
    ensures d.status == StatusOf(IpBytes(h, proto))
  {
    hide Frame, CommonRead, TreeRead, StatusOf, IpBytes;
    AboveTheLayer(Frame(macs, h, proto, transport), d);
    TreeShowsHeaders(macs, h, proto, transport);
  }

  /** The tree of a laid out frame says the values of its Ethernet and IPv4 headers. */
  lemma FrameTexts(macs: seq<byte>, h: IpHeader, proto: byte, transport: seq<byte>, name: string,
                   d: Detail, caption: nat -> string, items: seq<TreeItem>)
    requires |macs| == 12 && ValidIp(h)
    requires NamesProtocol(proto, name)
    requires TreeRead(Frame(macs, h, proto, transport)) == Some(d) && BuiltFrom(items, d, caption)
    ensures |items| >= 23
    ensures SaysEthernet(items, macs[..6], macs[6..])
    ensures SaysIp(items, h.version, IpWords(h), h.totalLen, h.id, h.ttl, name, h.check, ProperStatus(h, proto),
                   h.src, h.dst)
  {
    hide Frame, TreeRead, SaysEthernet, SaysIp, BuiltFrom, StatusOf, ProperStatus, IpBytes, IpWords, ValidIp,
      NamesProtocol;
    DetailOfFrame(macs, h, proto, transport, d);
    HeaderStatus(h, proto);
    SaysEthernetAndIp(items, d, caption, name);
  }

  /** The tree of a laid out TCP frame says the values of its TCP header. */
  lemma TcpFrameTexts(macs: seq<byte>, h: IpHeader, t: TcpHeader, payload: seq<byte>,
                      d: Detail, caption: nat -> string, items: seq<TreeItem>)
    requires |macs| == 12 && ValidIp(h) && ValidTcp(t)
    requires TreeRead(Frame(macs, h, 6, Segment(t, payload))) == Some(d) && BuiltFrom(items, d, caption)
    ensures SaysTcp(items, t.src, t.dst, t.sequence, t.ackSeq,
                    h.totalLen as int - 4 * IpWords(h) - 4 * TcpWords(t), t.window)
    ensures items[29].title == "Header Length: " + Dec(TcpWords(t) * 4)
  {
    hide Frame, Segment, TreeRead, BuiltFrom, SaysTcp, FlagByte;
    TcpTreeShows(macs, h, t, payload);
    SaysLayer(items, d, caption);
  }

  lemma UdpFrameTexts(macs: seq<byte>, h: IpHeader, src: u16, dst: u16, len: u16, check: u16, payload: seq<byte>,
                      d: Detail, caption: nat -> string, items: seq<TreeItem>)
    requires |macs| == 12 && ValidIp(h)
    requires TreeRead(Frame(macs, h, 17, Datagram(src, dst, len, check, payload))) == Some(d)
    requires BuiltFrom(items, d, caption)
    ensures SaysUdp(items, src, dst, len)
  {
    hide Frame, Datagram, TreeRead, BuiltFrom, SaysUdp;
    UdpTreeShows(macs, h, src, dst, len, check, payload);
    SaysLayer(items, d, caption);
  }

  /** The eight bytes of any ICMP message have the layout of an echo. */
  lemma IcmpFrameTexts(macs: seq<byte>, h: IpHeader, kind: byte, code: byte, check: u16, id: u16, sequence: u16,
                       payload: seq<byte>, d: Detail, caption: nat -> string, items: seq<TreeItem>)
    requires |macs| == 12 && ValidIp(h)
    requires TreeRead(Frame(macs, h, 1, Echo(kind, code, check, id, sequence, payload))) == Some(d)
    requires BuiltFrom(items, d, caption)
    ensures SaysIcmp(items, kind, code)
  {
    hide Frame, Echo, TreeRead, BuiltFrom, SaysIcmp;
    EchoTreeShows(macs, h, kind, code, check, id, sequence, payload);
    SaysLayer(items, d, caption);
  }
}
