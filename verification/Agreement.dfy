/** The list and the detail tree read the same frame twice: what they show of it agrees. */
module Agreement {
  import opened Wrappers
  import opened Bytes
  import opened Decoder
  import opened HeaderReads
  import opened InfoLine

  /** The flag byte of the tree holds the six flags of the line. */
  predicate SameFlags(flags: nat, f: TcpFields) {
    && flags < 256
    && f.fin == Bit(flags, 0) && f.syn == Bit(flags, 1) && f.rst == Bit(flags, 2)
    && f.psh == Bit(flags, 3) && f.ack == Bit(flags, 4) && f.urg == Bit(flags, 5)
  }

  /** What the line of a message that is no echo shows after its type. */
  function CodeText(kind: byte, code: byte): string {
    if kind == 3 then UnreachableText(code) else if kind == 11 then ExceededText(code) else ""
  }

  /** The ICMP line is that of the message type and code of the tree; an echo's reads back, with the TTL of the tree. */
  predicate SameMessage(info: string, ttl: byte, kind: byte, code: byte) {
    if kind == 0 || kind == 8 then
      var e := ReadEchoLine(info);
      e.Some? && e.value.kind == kind && e.value.ttl == ttl
    else info == IcmpTypeText(kind) + "   " + CodeText(kind, code)
  }

  /** The transport layer of the tree is the one a row names, with the values that its info text shows. */
  predicate SameLayer(proto: string, info: string, ttl: byte, l: Layer) {
    match l
    case TcpLayer(src, dst, sequence, ackSeq, len, _, _, flags, window) =>
      && proto == "TCP"
      && var f := ReadTcpLine(info);
      && f.Some? && f.value.src == src && f.value.dst == dst && f.value.sequence == sequence
      && f.value.ackSeq == ackSeq && f.value.len == len && f.value.window == window && SameFlags(flags, f.value)
    case UdpLayer(src, dst, len) => proto == "UDP" && ReadUdpLine(info) == Some((src, dst, len - 8))
    case IcmpLayer(kind, code) => proto == "ICMP" && SameMessage(info, ttl, kind, code)
    case NoLayer => false
  }

  lemma TcpAgrees(b: seq<byte>)
    requires Ipv4Framed(b) && Protocol(b) == 6 && TcpFramed(b)
    ensures LayerRead(b, Ihl(b), 6).Some?
    ensures Decode(b).Accepted?
    ensures SameLayer(Decode(b).packet.proto, Decode(b).packet.info, b[22], LayerRead(b, Ihl(b), 6).value)
  {
    TcpDecoded(b);
    TcpLayerInside(b);
    TcpLineReadable(TcpFieldsOf(b));
    hide Decode, TcpLayerRead, ReadTcpLine, TcpLine, Bit;
  }

  lemma UdpLineAgrees(src: nat, dst: nat, len: nat, ttl: byte)
    ensures SameLayer("UDP", UdpLine(src, dst, len as int - 8), ttl, UdpLayer(src, dst, len))
  {
    hide ReadUdpLine, UdpLine;
    UdpLineReadable(src, dst, len as int - 8);
  }

  lemma UdpAgrees(b: seq<byte>)
    requires Ipv4Framed(b) && Protocol(b) == 17 && Decode(b).Accepted?
    ensures LayerRead(b, Ihl(b), 17).Some?
    ensures SameLayer(Decode(b).packet.proto, Decode(b).packet.info, b[22], LayerRead(b, Ihl(b), 17).value)
  {
    hide Decode, LayerRead, UdpLine, SameLayer, U16, Transport;
    var t := Transport(b);
    UdpDecoded(b);
    UdpLayerInside(b);
    UdpLineAgrees(U16(b, t), U16(b, t + 2), U16(b, t + 4), b[22]);
  }

  lemma EchoAgrees(b: seq<byte>, t: nat)
    requires |b| >= t + 2 && |b| > 22 && (b[t] == 0 || b[t] == 8) && IcmpRead(b, t).Some?
    ensures SameMessage(IcmpRead(b, t).value, b[22], b[t], b[t + 1])
  {
    hide EchoText, IcmpTypeText, ReadEchoLine, ReadU16, UnreachableText, ExceededText;
    var id, sequence := ReadU16(b, t + 4), ReadU16(b, t + 6);
    assert IcmpDetail(b, t, b[t]) == Some(EchoText(id.value, sequence.value, b[22]));
    EchoLineReadable(EchoFields(b[t], id.value, sequence.value, b[22]));
  }

  lemma MessageAgrees(b: seq<byte>, t: nat)
    requires |b| >= t + 2 && |b| > 22 && b[t] != 0 && b[t] != 8 && IcmpRead(b, t).Some?
    ensures SameMessage(IcmpRead(b, t).value, b[22], b[t], b[t + 1])
  {
    hide EchoText, IcmpTypeText, ReadEchoLine, ReadU16, UnreachableText, ExceededText;
    assert IcmpDetail(b, t, b[t]) == Some(CodeText(b[t], b[t + 1]));
  }

  lemma IcmpAgrees(b: seq<byte>)
    requires Ipv4Framed(b) && Protocol(b) == 1 && Decode(b).Accepted? && LayerRead(b, Ihl(b), 1).Some?
    ensures SameLayer(Decode(b).packet.proto, Decode(b).packet.info, b[22], LayerRead(b, Ihl(b), 1).value)
  {
    hide Decode, IcmpRead, LayerRead, SameMessage, Transport;
    var t := Transport(b);
    IcmpDecoded(b);
    IcmpLayerInside(b);
    if b[t] == 0 || b[t] == 8 {
      EchoAgrees(b, t);
    } else {
      MessageAgrees(b, t);
    }
  }

  /** Whatever the list accepts and the tree can read, both show alike. */
  lemma ListAndTreeAgree(b: seq<byte>)
    requires Decode(b).Accepted? && TreeRead(b).Some?
    ensures var p, d := Decode(b).packet, TreeRead(b).value;
      && p.src == d.src && p.dst == d.dst && p.len == d.totalLen + ETHER_LEN
      && SameLayer(p.proto, p.info, d.ttl, d.layer)
  {
    AcceptedFrame(b);
    CommonInside(b);
    TreeReadIs(b);
    hide Decode, CommonRead, TreeRead, SameLayer, TcpLine;
    if Protocol(b) == 6 {
      TcpAgrees(b);
      TcpDecoded(b);
    } else if Protocol(b) == 17 {
      UdpAgrees(b);
      UdpDecoded(b);
    } else {
      IcmpAgrees(b);
      IcmpDecoded(b);
    }
  }
}
