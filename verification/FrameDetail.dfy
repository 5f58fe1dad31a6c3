/** What the detail tree shows of frames laid out by the standards: exactly the values a frame was built from. */
module FrameDetail {
  import opened Wrappers
  import opened Bytes
  import opened Decoder
  import opened HeaderReads
  import opened Checksum
  import opened FrameLayout

  // ---------- Ethernet and IPv4 ----------

  /** The IPv4 header of a laid out frame, options included. */
  function IpBytes(h: IpHeader, proto: byte): (b: seq<byte>)
    requires ValidIp(h)
    ensures |b| == 4 * IpWords(h)
  {
    IpFixed(h, proto) + h.options
  }

  /** The fields of an IPv4 header, read from its own bytes. */
  lemma IpFixedFields(h: IpHeader, proto: byte)
    requires ValidIp(h)
    ensures var f := IpFixed(h, proto);
      && f[0] as nat / 16 == h.version && f[0] as nat % 16 == IpWords(h) && f[1] == h.tos && f[9] == proto
      && U16(f, 2) == h.totalLen && U16(f, 4) == h.id && U16(f, 6) == h.frag && f[8] == h.ttl && U16(f, 10) == h.check
  {
  }

  /** Where the parts of a laid out frame lie. */
  lemma FrameParts(macs: seq<byte>, h: IpHeader, proto: byte, transport: seq<byte>)
    requires |macs| == 12 && ValidIp(h)
    ensures var b := Frame(macs, h, proto, transport);
      && LiesAt(b, 0, macs) && LiesAt(b, 14, IpFixed(h, proto)) && LiesAt(b, 14, IpBytes(h, proto))
  {
    hide IpFixed;
    var b := Frame(macs, h, proto, transport);
    assert b[0..12] == macs;
    assert b == (macs + [0x08, 0x00]) + (IpBytes(h, proto) + transport);
    assert b[14..] == IpBytes(h, proto) + transport;
    HeadLiesAt(b, 14, IpBytes(h, proto), transport);
    assert b[14..34] == IpBytes(h, proto)[..20] == IpFixed(h, proto);
  }

  lemma HeaderWords(b: seq<byte>, h: IpHeader, proto: byte)
    requires ValidIp(h) && LiesAt(b, 14, IpFixed(h, proto))
    ensures b[14] as nat / 16 == h.version && b[14] as nat % 16 == IpWords(h) && b[15] == h.tos
    ensures U16(b, 18) == h.id && U16(b, 20) == h.frag && U16(b, 24) == h.check
  {
    var f := IpFixed(h, proto);
    IpFixedFields(h, proto);
    hide IpFixed, LiesAt;
    ByteAt(b, 14, f, 0);
    ByteAt(b, 14, f, 1);
    WordAt(b, 14, f, 4);
    WordAt(b, 14, f, 6);
    WordAt(b, 14, f, 10);
  }

  /** The fields of the tree that the list does not show. */
  lemma CommonFields(b: seq<byte>)
    requires Ipv4Framed(b) && CommonRead(b).Some?
    ensures var d := CommonRead(b).value;
      && d.dstMac == b[0..6] && d.srcMac == b[6..12] && d.etherType == 0x0800
      && d.version == b[14] as nat / 16 && d.tos == b[15] && d.id == U16(b, 18) && d.frag == U16(b, 20)
      && d.ttl == b[22] && d.layer == NoLayer
  {
    ReadSpanInside(b, 0, 6);
    ReadSpanInside(b, 6, 6);
    hide ReadSpan, StatusOf, ReadAddr;
  }

  /** The tree shows every field of the Ethernet and IPv4 headers in its place. */
  lemma TreeShowsHeaders(macs: seq<byte>, h: IpHeader, proto: byte, transport: seq<byte>)
    requires |macs| == 12 && ValidIp(h)
    ensures CommonRead(Frame(macs, h, proto, transport)) == Some(
      Detail(macs[..6], macs[6..], 0x0800, h.version, IpWords(h), h.tos, h.totalLen, h.id, h.frag, h.ttl, proto,
             h.check, StatusOf(IpBytes(h, proto)), h.src, h.dst, NoLayer))
  {
    var b := Frame(macs, h, proto, transport);
    IpPart(macs, h, proto, transport);
    FrameParts(macs, h, proto, transport);
    assert b[0..6] == b[0..12][..6] && b[6..12] == b[0..12][6..];
    hide Frame, IpFixed, IpBytes, StatusOf;
    HeaderWords(b, h, proto);
    CommonInside(b);
    CommonFields(b);
  }

  /** Good for a check field congruent modulo 65535 to the checksum computed with that field zeroed. */
  function ProperStatus(h: IpHeader, proto: byte): string
    requires ValidIp(h)
  {
    if h.check % MAX_WORD == Proper(IpBytes(h, proto)) % MAX_WORD then "Good" else "Bad"
  }

  /** The status shown of a laid out frame: Good exactly when its check field is congruent to the proper checksum. */
  lemma HeaderStatus(h: IpHeader, proto: byte)
    requires ValidIp(h)
    ensures StatusOf(IpBytes(h, proto)) == ProperStatus(h, proto)
  {
    var b := IpBytes(h, proto);
    IpFixedFields(h, proto);
    assert U16(b, 10) == U16(IpFixed(h, proto), 10) && b[0] % 16 == IpWords(h);
    hide Good, Proper, IpBytes;
    GoodIff(b);
  }

  // ---------- the transport layers ----------

  lemma TcpReserved(b: seq<byte>)
    requires Ipv4Framed(b) && TcpLayerRead(b, Ihl(b)).Some?
    ensures |b| > Transport(b) + 12
    ensures TcpLayerRead(b, Ihl(b)).value.reserved == b[Transport(b) + 12] as nat % 16
  {
    hide ReadU16, ReadU32, TreeFlags;
  }

  lemma TcpTreeShows(macs: seq<byte>, h: IpHeader, t: TcpHeader, payload: seq<byte>)
    requires |macs| == 12 && ValidIp(h) && ValidTcp(t)
    ensures var d := TreeRead(Frame(macs, h, 6, Segment(t, payload)));
      && d.Some?
      && d.value.layer == TcpLayer(t.src, t.dst, t.sequence, t.ackSeq,
           h.totalLen as int - 4 * IpWords(h) - 4 * TcpWords(t), TcpWords(t), t.reserved, FlagByte(t), t.window)
  {
    var b := Frame(macs, h, 6, Segment(t, payload));
    IpPart(macs, h, 6, Segment(t, payload));
    hide Frame, TreeRead, CommonRead;
    TreeReadIs(b);
    var o, f := Transport(b), TcpFixed(t);
    HeadLiesAt(b, o, f, t.options + payload);
    TcpFixedFields(t);
    TcpPart(b, t, payload);
    hide TcpFixed, Segment, FlagByte, Transport, TcpFieldsOf;
    ByteAt(b, o, f, 12);
    ByteAt(b, o, f, 13);
    hide LiesAt;
    TcpLayerInside(b);
    TcpReserved(b);
  }

  lemma UdpTreeShows(macs: seq<byte>, h: IpHeader, src: u16, dst: u16, len: u16, check: u16, payload: seq<byte>)
    requires |macs| == 12 && ValidIp(h)
    ensures var d := TreeRead(Frame(macs, h, 17, Datagram(src, dst, len, check, payload)));
      d.Some? && d.value.layer == UdpLayer(src, dst, len)
  {
    hide Frame, TreeRead, CommonRead, LayerRead, Transport, U16, Datagram;
    var g := Datagram(src, dst, len, check, payload);
    var b := Frame(macs, h, 17, g);
    IpPart(macs, h, 17, g);
    DatagramPart(b, Transport(b), src, dst, len, check, payload);
    UdpLayerInside(b);
    TreeReadIs(b);
  }

  lemma EchoTreeShows(macs: seq<byte>, h: IpHeader, kind: byte, code: byte, check: u16, id: u16, sequence: u16,
                      payload: seq<byte>)
    requires |macs| == 12 && ValidIp(h)
    ensures var d := TreeRead(Frame(macs, h, 1, Echo(kind, code, check, id, sequence, payload)));
      d.Some? && d.value.layer == IcmpLayer(kind, code)
  {
    hide Frame, TreeRead, CommonRead, LayerRead, Transport, Echo;
    var g := Echo(kind, code, check, id, sequence, payload);
    var b := Frame(macs, h, 1, g);
    IpPart(macs, h, 1, g);
    EchoHead(b, Transport(b), kind, code, check, id, sequence, payload);
    IcmpLayerInside(b);
    TreeReadIs(b);
  }
}
