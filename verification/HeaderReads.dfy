/**
 The two readings of a frame: the list decoder, and the tree builder working on the stored copy. Which of their
 reads stay inside the captured bytes, and that both find the same values.
 */
module HeaderReads {
  import opened Wrappers
  import opened Bytes
  import opened Decoder
  import opened Checksum

  // ---------- the two payload lengths ----------

  /** The tree's payload length: plain `int` arithmetic. */
  function TreePayloadLen(totalLen: nat, ihl: nat, doff: nat): int {
    totalLen as int - ihl * 4 - doff * 4
  }

  lemma WrapIsExact(x: int)
    requires -0x8000_0000 <= x < 0x8000_0000
    ensures Uint32ToInt(ToUint32(x)) == x
  {
    if x < 0 {
      assert x % 0x1_0000_0000 == x + 0x1_0000_0000;
    }
  }

  /** Wrapping through `uint32_t` loses nothing: both lengths are the same signed number, also when negative. */
  lemma PayloadLengthsAgree(totalLen: nat, ihl: nat, doff: nat)
    requires totalLen < 0x1_0000 && ihl < 16 && doff < 16
    ensures ListPayloadLen(totalLen, ihl, doff) == TreePayloadLen(totalLen, ihl, doff)
  {
    WrapIsExact(TreePayloadLen(totalLen, ihl, doff));
  }

  // ---------- the flag byte ----------

  /** The tree reassembles the flag byte from the eight bit fields. */
  function TreeFlags(x: byte): nat {
    Shifted(Bit(x, 7), 7) + Shifted(Bit(x, 6), 6) + Shifted(Bit(x, 5), 5) + Shifted(Bit(x, 4), 4)
    + Shifted(Bit(x, 3), 3) + Shifted(Bit(x, 2), 2) + Shifted(Bit(x, 1), 1) + Shifted(Bit(x, 0), 0)
  }

  lemma OnlyLowByte(x: nat, low: nat, high: nat)
    requires x < 256 && x == low + 256 * high
    ensures x == low
  {
  }

  lemma ShiftedBy4(on: bool, k: nat)
    ensures Shifted(on, k + 4) == 16 * Shifted(on, k)
  {
    assert Shifted(on, k + 2) == 4 * Shifted(on, k);
    assert Shifted(on, k + 4) == 4 * Shifted(on, k + 2);
  }

  function Nibble(x: byte, k: nat): nat {
    Shifted(Bit(x, k + 3), 3) + Shifted(Bit(x, k + 2), 2) + Shifted(Bit(x, k + 1), 1) + Shifted(Bit(x, k), 0)
  }

  lemma NibblesOfFlags(x: byte)
    ensures TreeFlags(x) == 16 * Nibble(x, 4) + Nibble(x, 0)
  {
    ShiftedBy4(Bit(x, 4), 0);
    ShiftedBy4(Bit(x, 5), 1);
    ShiftedBy4(Bit(x, 6), 2);
    ShiftedBy4(Bit(x, 7), 3);
  }

  lemma ShrStep(x: byte, k: nat)
    ensures Shr(x, k) as int == 2 * Shr(x, k + 1) + if Bit(x, k) then 1 else 0
  {
    var s: int := Shr(x, k);
    assert s == 2 * (s / 2) + s % 2;
  }

  lemma ShiftedTrue()
    ensures Shifted(true, 0) == 1 && Shifted(true, 1) == 2 && Shifted(true, 2) == 4 && Shifted(true, 3) == 8
    ensures Shifted(true, 4) == 16 && Shifted(true, 5) == 32 && Shifted(true, 6) == 64 && Shifted(true, 7) == 128
  {
    assert Shifted(true, 3) == 8;
    assert Shifted(true, 5) == 32;
  }

  lemma FourBits(x: byte, k: nat)
    ensures Shr(x, k) as int == Nibble(x, k) + 16 * Shr(x, k + 4) as int
  {
    ShrStep(x, k);
    ShrStep(x, k + 1);
    ShrStep(x, k + 2);
    ShrStep(x, k + 3);
    ShiftedTrue();
  }

  lemma TreeFlagsAreTheByte(x: byte)
    ensures TreeFlags(x) == x
  {
    FourBits(x, 0);
    FourBits(x, 4);
    NibblesOfFlags(x);
    OnlyLowByte(x, 16 * Nibble(x, 4) + Nibble(x, 0), Shr(x, 8));
  }

  // ---------- the list ----------

  /** A TCP frame is never read past its end: the length checks cover every read. It is accepted when they hold. */
  lemma TcpNeverOverreads(b: seq<byte>)
    requires Ipv4Framed(b) && Protocol(b) == 6
    ensures Decode(b) != Overread
    ensures Decode(b).Accepted? <==> TcpFramed(b)
    ensures TcpFramed(b) ==> TcpRead(b, Ihl(b)) == Some(TcpFieldsOf(b))
  {
    TcpDecoded(b);
    if TcpFramed(b) {
      TcpReadInside(b);
    }
  }

  /** How many bytes of an ICMP header the list wants, by message type. */
  function IcmpNeed(kind: byte): nat {
    match kind
    case 3 => 2
    case 11 => 2
    case 0 => 8
    case 8 => 8
    case _ => 1
  }

  /** How many transport bytes a caller must have captured for the reads the list does not check. */
  function TransportNeed(b: seq<byte>): nat
    requires Ipv4Framed(b)
  {
    match Protocol(b)
    case 17 => 6
    case 1 => if |b| <= Transport(b) then 1 else IcmpNeed(b[Transport(b)])
    case _ => 0
  }

  lemma IcmpReadInside(b: seq<byte>)
    requires Ipv4Framed(b)
    ensures var t := Transport(b);
      IcmpRead(b, t).Some? <==> |b| > t && |b| >= t + IcmpNeed(b[t])
  {
    var t := Transport(b);
    WordInside(b, t + 4);
    WordInside(b, t + 6);
  }

  /** The list decoder stays inside the captured bytes exactly when they hold the transport bytes its branch wants. */
  lemma ListStaysInsideIff(b: seq<byte>)
    ensures Decode(b) != Overread
       <==> (Ipv4Framed(b) ==> |b| >= Transport(b) + TransportNeed(b))
  {
    BranchOf(b);
    hide ListRead, TcpBranch, UdpBranch, IcmpBranch, IcmpRead, Transport;
    if Ipv4Framed(b) {
      if Protocol(b) == 6 {
        TcpNeverOverreads(b);
      } else if Protocol(b) == 17 {
        UdpDecoded(b);
      } else if Protocol(b) == 1 {
        IcmpDecoded(b);
        IcmpReadInside(b);
      }
    }
  }

  /** Exactly which frames the list drops, by their bytes. */
  lemma DroppedIff(b: seq<byte>)
    ensures Decode(b) == Rejected <==>
      || |b| < 14 || b[12] != 0x08 || b[13] != 0x00
      || |b| < 34 || b[14] % 16 < 5 || |b| < 14 + b[14] % 16 * 4
      || b[23] !in {1, 6, 17}
      || (b[23] == 6 && (
            var t := 14 + b[14] % 16 * 4;
            |b| < t + 20 || b[t + 12] / 16 < 5 || |b| < t + b[t + 12] / 16 * 4))
  {
    BranchOf(b);
    hide ListRead, TcpBranch, UdpBranch, IcmpBranch, TcpLine, UdpLine;
    if Ipv4Framed(b) {
      if Protocol(b) == 6 {
        TcpDecoded(b);
      } else if Protocol(b) == 17 {
        UdpDecoded(b);
      } else if Protocol(b) == 1 {
        IcmpDecoded(b);
      }
    }
  }

  /** An IPv4 frame of n bytes without options, all zero but for the protocol and the first transport byte. */
  function ShortFrame(n: nat, proto: byte, first: byte): (b: seq<byte>)
    requires n >= 34
    ensures |b| == n && Ipv4Framed(b) && Protocol(b) == proto && Transport(b) == 34
    ensures n > 34 ==> b[34] == first
  {
    seq(n, i =>
      if i == 12 then 8 else if i == 14 then 0x45 else if i == 23 then proto else if i == 34 then first else 0)
  }

  /** A UDP frame cut off after its two ports is read past its end. */
  lemma ShortUdpOverreads()
    ensures exists b: seq<byte> :: |b| == 38 && Decode(b) == Overread
  {
    var b := ShortFrame(38, 17, 0);
    UdpDecoded(b);
    assert |b| == 38 && Decode(b) == Overread;
  }

  // ---------- the tree ----------

  /** What the tree shows of the transport header. */
  datatype Layer =
    | TcpLayer(src: nat, dst: nat, sequence: nat, ackSeq: nat, len: int,
               words: nat, reserved: nat, flags: nat, window: nat)
    | UdpLayer(src: nat, dst: nat, len: int)
    | IcmpLayer(kind: byte, code: byte)
    | NoLayer

  /** The checksum status of an IPv4 header; its length is a multiple of four. */
  function StatusOf(h: seq<byte>): string {
    if |h| % 2 == 0 && Good(h) then "Good" else "Bad"
  }

  /** What the tree shows of a stored packet; status is that of the IPv4 header, options included. */
  datatype Detail = Detail(
    dstMac: seq<byte>, srcMac: seq<byte>, etherType: nat,
    version: nat, ihl: nat, tos: byte, totalLen: nat, id: nat, frag: nat, ttl: byte, proto: byte, check: nat,
    status: string, src: Addr, dst: Addr, layer: Layer)

  function TcpLayerRead(b: seq<byte>, ihl: nat): Option<Layer> {
    var t := ETHER_LEN + ihl * 4;
    var totalLen :- ReadU16(b, 16);
    var words :- ReadU8(b, t + 12);
    var src :- ReadU16(b, t);
    var dst :- ReadU16(b, t + 2);
    var sequence :- ReadU32(b, t + 4);
    var ackSeq :- ReadU32(b, t + 8);
    var flags :- ReadU8(b, t + 13);
    var window :- ReadU16(b, t + 14);
    Some(TcpLayer(src, dst, sequence, ackSeq, TreePayloadLen(totalLen, ihl, words as nat / 16),
                  words as nat / 16, words as nat % 16, TreeFlags(flags), window))
  }

  function UdpLayerRead(b: seq<byte>, t: nat): Option<Layer> {
    var src :- ReadU16(b, t);
    var dst :- ReadU16(b, t + 2);
    var len :- ReadU16(b, t + 4);
    Some(UdpLayer(src, dst, len))
  }

  /** Type and code are read whatever the type is. */
  function IcmpLayerRead(b: seq<byte>, t: nat): Option<Layer> {
    var kind :- ReadU8(b, t);
    var code :- ReadU8(b, t + 1);
    Some(IcmpLayer(kind, code))
  }

  function LayerRead(b: seq<byte>, ihl: nat, proto: byte): Option<Layer> {
    if proto == 6 then TcpLayerRead(b, ihl)
    else if proto == 17 then UdpLayerRead(b, ETHER_LEN + ihl * 4)
    else if proto == 1 then IcmpLayerRead(b, ETHER_LEN + ihl * 4)
    else Some(NoLayer)
  }

  /** The Ethernet and IPv4 fields, in the order the tree reads them, without any check. */
  function CommonRead(b: seq<byte>): Option<Detail> {
    var dstMac :- ReadSpan(b, 0, 6);
    var srcMac :- ReadSpan(b, 6, 6);
    var etherType :- ReadU16(b, 12);
    var src :- ReadAddr(b, 26);
    var dst :- ReadAddr(b, 30);
    var first :- ReadU8(b, 14);
    var tos :- ReadU8(b, 15);
    var totalLen :- ReadU16(b, 16);
    var id :- ReadU16(b, 18);
    var frag :- ReadU16(b, 20);
    var ttl :- ReadU8(b, 22);
    var proto :- ReadU8(b, 23);
    var check :- ReadU16(b, 24);
    var ipHeader :- ReadSpan(b, ETHER_LEN, first as nat % 16 * 4);
    Some(Detail(dstMac, srcMac, etherType, first as nat / 16, first as nat % 16, tos, totalLen, id, frag, ttl, proto,
                check, StatusOf(ipHeader), src, dst, NoLayer))
  }

  /** Everything the tree builder reads of stored bytes: None when one of its reads lies past them. */
  function TreeRead(b: seq<byte>): Option<Detail> {
    var common :- CommonRead(b);
    var layer :- LayerRead(b, common.ihl, common.proto);
    Some(common.(layer := layer))
  }

  /** A framed packet holds everything above the transport layer. */
  lemma CommonInside(b: seq<byte>)
    requires Ipv4Framed(b)
    ensures CommonRead(b).Some?
    ensures var d := CommonRead(b).value;
      && d.ihl == Ihl(b) && d.proto == Protocol(b) && d.totalLen == TotalLength(b) && d.check == U16(b, 24)
      && d.ttl == b[22] && |d.dstMac| == 6 && |d.srcMac| == 6
      && d.status == StatusOf(b[ETHER_LEN..Transport(b)]) && d.src == AddrAt(b, 26) && d.dst == AddrAt(b, 30)
  {
    hide StatusOf;
    ReadSpanInside(b, 0, 6);
    ReadSpanInside(b, 6, 6);
    ReadSpanInside(b, ETHER_LEN, Ihl(b) * 4);
    hide ReadSpan;
    ReadAddrInside(b, 26);
    ReadAddrInside(b, 30);
  }

  /** Bytes that are not even framed, as those of a packet that is not stored, are read past their end. */
  lemma TooShortForTree(b: seq<byte>)
    requires |b| < ETHER_LEN + IP_MIN_LEN
    ensures TreeRead(b).None?
  {
    hide ReadSpan, StatusOf;
    ReadAddrInside(b, 30);
  }

  lemma TreeReadIs(b: seq<byte>)
    requires Ipv4Framed(b)
    ensures CommonRead(b).Some?
    ensures var layer := LayerRead(b, Ihl(b), Protocol(b));
      TreeRead(b) == if layer.None? then None else Some(CommonRead(b).value.(layer := layer.value))
  {
    hide CommonRead, LayerRead;
    CommonInside(b);
  }

  /** The checks of the list cover every read the tree makes of a TCP header, and both find the same values. */
  lemma TcpLayerInside(b: seq<byte>)
    requires Ipv4Framed(b) && TcpFramed(b)
    ensures TcpLayerRead(b, Ihl(b)).Some?
    ensures var l, f := TcpLayerRead(b, Ihl(b)).value, TcpFieldsOf(b);
      && l.TcpLayer? && l.src == f.src && l.dst == f.dst && l.sequence == f.sequence && l.ackSeq == f.ackSeq
      && l.len == f.len && l.window == f.window && l.words == Doff(b, Transport(b))
      && l.flags == b[Transport(b) + 13] as nat
  {
    var t := Transport(b);
    PayloadLengthsAgree(TotalLength(b), Ihl(b), Doff(b, t));
    TreeFlagsAreTheByte(b[t + 13]);
    hide ListPayloadLen, TreePayloadLen, TreeFlags, Bit;
    WordInside(b, t);
    WordInside(b, t + 2);
    DoubleInside(b, t + 4);
    DoubleInside(b, t + 8);
    WordInside(b, t + 14);
    WordInside(b, 16);
  }

  lemma UdpLayerInside(b: seq<byte>)
    requires Ipv4Framed(b) && |b| >= Transport(b) + 6
    ensures var t := Transport(b);
      LayerRead(b, Ihl(b), 17) == Some(UdpLayer(U16(b, t), U16(b, t + 2), U16(b, t + 4)))
  {
    var t := Transport(b);
    WordInside(b, t);
    WordInside(b, t + 2);
    WordInside(b, t + 4);
  }

  lemma IcmpLayerInside(b: seq<byte>)
    requires Ipv4Framed(b)
    ensures var t := Transport(b);
      LayerRead(b, Ihl(b), 1) == if |b| >= t + 2 then Some(IcmpLayer(b[t], b[t + 1])) else None
  {
  }

  /** An ICMP message of which only the type byte is there. */
  predicate OneByteIcmp(b: seq<byte>) {
    Ipv4Framed(b) && Protocol(b) == 1 && |b| == Transport(b) + 1
  }

  /**
   A frame the list accepts is read past its end by the tree exactly when it is an ICMP message of one byte: the list
   shows no code for its type, but the tree does.
   */
  lemma TreeStaysInsideIff(b: seq<byte>)
    requires Decode(b).Accepted?
    ensures TreeRead(b).None? <==> OneByteIcmp(b)
  {
    AcceptedFrame(b);
    TreeReadIs(b);
    hide Decode, TreeRead, TcpLayerRead, PacketOf;
    if Protocol(b) == 6 {
      TcpLayerInside(b);
    }
  }

  /** Such a frame exists: an ICMP redirect cut off after its type. */
  lemma OneByteIcmpOverreads()
    ensures exists b: seq<byte> :: |b| == 35 && b[34] == 5 && Decode(b).Accepted? && TreeRead(b).None?
  {
    var b := ShortFrame(35, 1, 5);
    IcmpDecoded(b);
    IcmpReadInside(b);
    TreeStaysInsideIff(b);
    assert |b| == 35 && b[34] == 5 && Decode(b).Accepted? && TreeRead(b).None?;
  }

  /** A full 8-byte transport header keeps both readings inside, for every protocol. */
  lemma FullHeaderSuffices(b: seq<byte>)
    requires Ipv4Framed(b) ==> |b| >= Transport(b) + 8
    ensures Decode(b) != Overread
    ensures Decode(b).Accepted? ==> TreeRead(b).Some?
  {
    hide Decode, TreeRead, Transport;
    ListStaysInsideIff(b);
    if Decode(b).Accepted? {
      AcceptedFrame(b);
      TreeStaysInsideIff(b);
    }
  }

  // ---------- the tree's reading, as it runs ----------

  /** `compute_ip_checksum` over the header, and the word shown for its result. */
  method VerifyHeader(h: seq<byte>) returns (status: string)
    requires |h| % 2 == 0
    ensures status == StatusOf(h)
  {
    hide Computed, InternetChecksum;
    assert h[..Span(|h|)] == h;
    var check := ComputeIpChecksum(h, |h|);
    if check == 0 {
      status := "Good";
    } else {
      status := "Bad";
    }
  }

  method ReadLayer(b: seq<byte>, ihl: nat, totalLen: nat, proto: byte) returns (layer: Option<Layer>)
    requires ReadU16(b, 16) == Some(totalLen)
    ensures layer == LayerRead(b, ihl, proto)
  {
    hide ReadU16, ReadU32, ReadU8, TreeFlags;
    var t := ETHER_LEN + ihl * 4;
    if proto == 6 {
      var words :- ReadU8(b, t + 12);
      var payload := totalLen as int - ihl * 4 - words as nat / 16 * 4;
      var src :- ReadU16(b, t);
      var dst :- ReadU16(b, t + 2);
      var sequence :- ReadU32(b, t + 4);
      var ackSeq :- ReadU32(b, t + 8);
      var flags :- ReadU8(b, t + 13);
      var window :- ReadU16(b, t + 14);
      return Some(TcpLayer(src, dst, sequence, ackSeq, payload, words as nat / 16, words as nat % 16,
                           TreeFlags(flags), window));
    } else if proto == 17 {
      var src :- ReadU16(b, t);
      var dst :- ReadU16(b, t + 2);
      var len :- ReadU16(b, t + 4);
      return Some(UdpLayer(src, dst, len));
    } else if proto == 1 {
      var kind :- ReadU8(b, t);
      var code :- ReadU8(b, t + 1);
      return Some(IcmpLayer(kind, code));
    }
    return Some(NoLayer);
  }

  method ReadTree(b: seq<byte>) returns (detail: Option<Detail>)
    ensures detail == TreeRead(b)
  {
    hide ReadSpan, ReadAddr, ReadU16, ReadU8, StatusOf, LayerRead;
    var dstMac :- ReadSpan(b, 0, 6);
    var srcMac :- ReadSpan(b, 6, 6);
    var etherType :- ReadU16(b, 12);
    var src :- ReadAddr(b, 26);
    var dst :- ReadAddr(b, 30);
    var first :- ReadU8(b, 14);
    var version, ihl := first as nat / 16, first as nat % 16;
    var tos :- ReadU8(b, 15);
    var totalLen :- ReadU16(b, 16);
    var id :- ReadU16(b, 18);
    var frag :- ReadU16(b, 20);
    var ttl :- ReadU8(b, 22);
    var proto :- ReadU8(b, 23);
    var check :- ReadU16(b, 24);
    var ipHeader :- ReadSpan(b, ETHER_LEN, ihl * 4);
    ReadSpanInside(b, ETHER_LEN, ihl * 4);
    var status := VerifyHeader(ipHeader);
    var layer :- ReadLayer(b, ihl, totalLen, proto);
    return Some(Detail(dstMac, srcMac, etherType, version, ihl, tos, totalLen, id, frag, ttl, proto, check, status,
                       src, dst, layer));
  }
}
