/**
 Frames laid out by the standards (section 3.1 of RFC 791, section 3.1 of RFC 9293, RFC 768), and that the
 decoder shows exactly the values a frame was built from.
 */
module FrameLayout {
  import opened Wrappers
  import opened Bytes
  import opened Decoder
  import opened HeaderReads

  type u16 = n: nat | n < 0x1_0000

  type u32 = n: nat | n < 0x1_0000_0000

  function High(n: u16): byte { n / 256 }

  function Low(n: u16): byte { n % 256 }

  /** Options fill the header up to whole 32-bit words, at most ten of them. */
  predicate ValidOptions(options: seq<byte>) {
    |options| % 4 == 0 && |options| <= 40
  }

  datatype IpHeader = IpHeader(
    version: nat, tos: byte, totalLen: u16, id: u16, frag: u16, ttl: byte, check: u16,
    src: Addr, dst: Addr, options: seq<byte>)

  predicate ValidIp(h: IpHeader) {
    h.version < 16 && ValidOptions(h.options)
  }

  function IpWords(h: IpHeader): nat {
    5 + |h.options| / 4
  }

  /** The fixed 20 bytes of an IPv4 header. */
  function IpFixed(h: IpHeader, proto: byte): (b: seq<byte>)
    requires ValidIp(h)
    ensures |b| == 20
  {
    [h.version * 16 + IpWords(h), h.tos, High(h.totalLen), Low(h.totalLen),
     High(h.id), Low(h.id), High(h.frag), Low(h.frag),
     h.ttl, proto, High(h.check), Low(h.check),
     h.src.a, h.src.b, h.src.c, h.src.d, h.dst.a, h.dst.b, h.dst.c, h.dst.d]
  }

  /** An Ethernet frame: two addresses, the IPv4 type, and an IPv4 packet. */
  function Frame(macs: seq<byte>, h: IpHeader, proto: byte, transport: seq<byte>): seq<byte>
    requires |macs| == 12 && ValidIp(h)
  {
    macs + [0x08, 0x00] + (IpFixed(h, proto) + (h.options + transport))
  }

  /** The bytes of an IPv4 header that the decoder looks at. */
  lemma IpPrefix(h: IpHeader, proto: byte)
    requires ValidIp(h)
    ensures var f := IpFixed(h, proto);
      && f[0] % 16 == IpWords(h) && U16(f, 2) == h.totalLen && f[8] == h.ttl && f[9] == proto
      && AddrAt(f, 12) == h.src && AddrAt(f, 16) == h.dst
  {
  }

  /** The decoder's view of the IPv4 part of a laid out frame. */
  lemma IpPart(macs: seq<byte>, h: IpHeader, proto: byte, transport: seq<byte>)
    requires |macs| == 12 && ValidIp(h)
    ensures var b := Frame(macs, h, proto, transport);
      && Ipv4Framed(b) && Ihl(b) == IpWords(h) && Protocol(b) == proto && TotalLength(b) == h.totalLen
      && b[22] == h.ttl && AddrAt(b, 26) == h.src && AddrAt(b, 30) == h.dst
      && |b| == Transport(b) + |transport| && b[Transport(b)..] == transport
  {
    var b := Frame(macs, h, proto, transport);
    var fixed := IpFixed(h, proto);
    assert forall i | 0 <= i < 20 :: b[14 + i] == fixed[i];
    assert b[12] == 8 && b[13] == 0;
    assert b[14 + 4 * IpWords(h)..] == transport;
    IpPrefix(h, proto);
    hide Frame, IpFixed;
    assert b[14] == fixed[0] && b[16] == fixed[2] && b[17] == fixed[3] && b[22] == fixed[8] && b[23] == fixed[9];
    assert AddrAt(b, 26) == AddrAt(fixed, 12) && AddrAt(b, 30) == AddrAt(fixed, 16);
  }

  // ---------- TCP ----------

  datatype TcpHeader = TcpHeader(
    src: u16, dst: u16, sequence: u32, ackSeq: u32, reserved: nat,
    cwr: bool, ece: bool, urg: bool, ack: bool, psh: bool, rst: bool, syn: bool, fin: bool,
    window: u16, check: u16, urgent: u16, options: seq<byte>)

  predicate ValidTcp(t: TcpHeader) {
    t.reserved < 16 && ValidOptions(t.options)
  }

  function TcpWords(t: TcpHeader): nat {
    5 + |t.options| / 4
  }

  function One(on: bool): nat {
    if on then 1 else 0
  }

  /** Three flags, least significant first. */
  function Octal(a: bool, b: bool, c: bool): (n: nat)
    ensures n < 8 && (!c ==> n < 4)
  {
    One(a) + 2 * One(b) + 4 * One(c)
  }

  /** The flag byte, least significant bit first: FIN, SYN, RST, PSH, ACK, URG, ECE, CWR. */
  function FlagByte(t: TcpHeader): byte {
    Octal(t.fin, t.syn, t.rst) + 8 * Octal(t.psh, t.ack, t.urg) + 64 * Octal(t.ece, t.cwr, false)
  }

  function Byte3(n: u32): byte { n / 0x100_0000 }

  function Byte2(n: u32): byte { n / 0x1_0000 % 256 }

  function Byte1(n: u32): byte { n / 0x100 % 256 }

  function Byte0(n: u32): byte { n % 256 }

  function TcpFixed(t: TcpHeader): (b: seq<byte>)
    requires ValidTcp(t)
    ensures |b| == 20
  {
    [High(t.src), Low(t.src), High(t.dst), Low(t.dst),
     Byte3(t.sequence), Byte2(t.sequence), Byte1(t.sequence), Byte0(t.sequence),
     Byte3(t.ackSeq), Byte2(t.ackSeq), Byte1(t.ackSeq), Byte0(t.ackSeq),
     TcpWords(t) * 16 + t.reserved, FlagByte(t), High(t.window), Low(t.window),
     High(t.check), Low(t.check), High(t.urgent), Low(t.urgent)]
  }

  function Segment(t: TcpHeader, payload: seq<byte>): seq<byte>
    requires ValidTcp(t)
  {
    TcpFixed(t) + (t.options + payload)
  }

  lemma WordsJoin(n: u32)
    ensures (256 * Byte3(n) as nat + Byte2(n) as nat) * 0x1_0000 + (256 * Byte1(n) as nat + Byte0(n) as nat) == n
  {
    assert n == n / 0x100 * 0x100 + n % 0x100;
    assert n / 0x100 == n / 0x1_0000 * 0x100 + n / 0x100 % 0x100;
    assert n / 0x1_0000 == n / 0x100_0000 * 0x100 + n / 0x1_0000 % 0x100;
  }

  lemma ShrZero(x: byte)
    ensures Shr(x, 0) == x
  {
  }

  lemma NextBit(x: byte, k: nat, on: bool, rest: nat)
    requires Shr(x, k) as int == One(on) + 2 * rest
    ensures Bit(x, k) == on && Shr(x, k + 1) as int == rest
  {
  }

  lemma ThreeBits(x: byte, k: nat, a: bool, b: bool, c: bool, rest: nat)
    requires Shr(x, k) as int == Octal(a, b, c) + 8 * rest
    ensures Bit(x, k) == a && Bit(x, k + 1) == b && Bit(x, k + 2) == c && Shr(x, k + 3) as int == rest
  {
    hide Shr, Bit;
    NextBit(x, k, a, One(b) + 2 * One(c) + 4 * rest);
    NextBit(x, k + 1, b, One(c) + 2 * rest);
    NextBit(x, k + 2, c, rest);
  }

  lemma FlagBits(t: TcpHeader)
    ensures var x := FlagByte(t);
      && Bit(x, 0) == t.fin && Bit(x, 1) == t.syn && Bit(x, 2) == t.rst
      && Bit(x, 3) == t.psh && Bit(x, 4) == t.ack && Bit(x, 5) == t.urg
  {
    hide Shr, Bit, Octal;
    var x := FlagByte(t);
    var high := Octal(t.ece, t.cwr, false);
    ShrZero(x);
    ThreeBits(x, 0, t.fin, t.syn, t.rst, Octal(t.psh, t.ack, t.urg) + 8 * high);
    ThreeBits(x, 3, t.psh, t.ack, t.urg, high);
  }

  /** part lies in b at offset o. */
  predicate LiesAt(b: seq<byte>, o: nat, part: seq<byte>) {
    o + |part| <= |b| && b[o..o + |part|] == part
  }

  lemma ByteAt(b: seq<byte>, o: nat, part: seq<byte>, i: nat)
    requires LiesAt(b, o, part) && i < |part|
    ensures b[o + i] == part[i]
  {
    assert b[o..o + |part|][i] == part[i];
  }

  lemma WordAt(b: seq<byte>, o: nat, part: seq<byte>, i: nat)
    requires LiesAt(b, o, part) && i + 1 < |part|
    ensures U16(b, o + i) == U16(part, i)
  {
    ByteAt(b, o, part, i);
    ByteAt(b, o, part, i + 1);
  }

  lemma HeadLiesAt(b: seq<byte>, o: nat, head: seq<byte>, tail: seq<byte>)
    requires o <= |b| && b[o..] == head + tail
    ensures LiesAt(b, o, head)
  {
    assert b[o..o + |head|] == b[o..][..|head|];
  }

  /** The fields of a TCP header, read from its own bytes. */
  lemma TcpFixedFields(t: TcpHeader)
    requires ValidTcp(t)
    ensures var f := TcpFixed(t);
      && U16(f, 0) == t.src && U16(f, 2) == t.dst && U16(f, 14) == t.window
      && U16(f, 4) * 0x1_0000 + U16(f, 6) == t.sequence && U16(f, 8) * 0x1_0000 + U16(f, 10) == t.ackSeq
      && f[12] == TcpWords(t) * 16 + t.reserved && f[13] == FlagByte(t)
  {
    hide FlagByte, TcpWords;
    WordsJoin(t.sequence);
    WordsJoin(t.ackSeq);
  }

  /** The decoder reads a TCP segment where it lies: every field of the header is found in its place. */
  lemma TcpPart(b: seq<byte>, t: TcpHeader, payload: seq<byte>)
    requires Ipv4Framed(b) && ValidTcp(t) && b[Transport(b)..] == Segment(t, payload)
    ensures TcpFramed(b) && Doff(b, Transport(b)) == TcpWords(t)
    ensures TcpFieldsOf(b) == TcpFields(t.src, t.dst, t.syn, t.ack, t.fin, t.rst, t.psh, t.urg,
      t.sequence, t.ackSeq, t.window, TotalLength(b) as int - 4 * Ihl(b) - 4 * TcpWords(t))
  {
    var o, f := Transport(b), TcpFixed(t);
    assert |b[o..]| == 20 + |t.options| + |payload|;
    HeadLiesAt(b, o, f, t.options + payload);
    TcpFixedFields(t);
    hide TcpFixed, Segment, LiesAt, FlagByte, Bit, Transport;
    ByteAt(b, o, f, 12);
    ByteAt(b, o, f, 13);
    WordAt(b, o, f, 0);
    WordAt(b, o, f, 2);
    WordAt(b, o, f, 4);
    WordAt(b, o, f, 6);
    WordAt(b, o, f, 8);
    WordAt(b, o, f, 10);
    WordAt(b, o, f, 14);
    assert Doff(b, o) == TcpWords(t);
    FlagBits(t);
    PayloadLengthsAgree(TotalLength(b), Ihl(b), Doff(b, o));
  }

  /** A TCP frame built by the standards is accepted, and its row shows the values it was built from. */
  lemma TcpFrameDecodes(macs: seq<byte>, h: IpHeader, t: TcpHeader, payload: seq<byte>)
    requires |macs| == 12 && ValidIp(h) && ValidTcp(t)
    ensures Decode(Frame(macs, h, 6, Segment(t, payload))) == Accepted(Packet("TCP",
      TcpLine(TcpFields(t.src, t.dst, t.syn, t.ack, t.fin, t.rst, t.psh, t.urg,
        t.sequence, t.ackSeq, t.window, h.totalLen as int - 4 * IpWords(h) - 4 * TcpWords(t))),
      h.src, h.dst, h.totalLen + 14))
  {
    hide Segment, Frame, TcpLine, Decode, Transport, TcpFramed, TcpFieldsOf, TcpWords;
    var b := Frame(macs, h, 6, Segment(t, payload));
    IpPart(macs, h, 6, Segment(t, payload));
    TcpPart(b, t, payload);
    TcpDecoded(b);
  }

  // ---------- UDP and ICMP echo ----------

  function Datagram(src: u16, dst: u16, len: u16, check: u16, payload: seq<byte>): seq<byte> {
    [High(src), Low(src), High(dst), Low(dst), High(len), Low(len), High(check), Low(check)] + payload
  }

  /** The words of a datagram, read where it lies. */
  lemma DatagramPart(b: seq<byte>, o: nat, src: u16, dst: u16, len: u16, check: u16, payload: seq<byte>)
    requires o <= |b| && b[o..] == Datagram(src, dst, len, check, payload)
    ensures |b| >= o + 8 && U16(b, o) == src && U16(b, o + 2) == dst && U16(b, o + 4) == len
  {
    var d := Datagram(src, dst, len, check, payload);
    assert |b[o..]| == 8 + |payload|;
    HeadLiesAt(b, o, d, []);
    assert U16(d, 0) == src && U16(d, 2) == dst && U16(d, 4) == len;
    hide LiesAt, Datagram;
    WordAt(b, o, d, 0);
    WordAt(b, o, d, 2);
    WordAt(b, o, d, 4);
  }

  /** A UDP frame is accepted, and its row shows its ports and the length without the 8 header bytes. */
  lemma UdpFrameDecodes(macs: seq<byte>, h: IpHeader, src: u16, dst: u16, len: u16, check: u16, payload: seq<byte>)
    requires |macs| == 12 && ValidIp(h)
    ensures Decode(Frame(macs, h, 17, Datagram(src, dst, len, check, payload)))
         == Accepted(Packet("UDP", UdpLine(src, dst, len as int - 8), h.src, h.dst, h.totalLen + 14))
  {
    hide Frame, UdpLine, Datagram, Decode, Transport, U16;
    var d := Datagram(src, dst, len, check, payload);
    var b := Frame(macs, h, 17, d);
    IpPart(macs, h, 17, d);
    DatagramPart(b, Transport(b), src, dst, len, check, payload);
    UdpDecoded(b);
  }

  function Echo(kind: byte, code: byte, check: u16, id: u16, sequence: u16, payload: seq<byte>): seq<byte> {
    [kind, code, High(check), Low(check), High(id), Low(id), High(sequence), Low(sequence)] + payload
  }

  lemma EchoHead(b: seq<byte>, o: nat, kind: byte, code: byte, check: u16, id: u16, sequence: u16, payload: seq<byte>)
    requires o <= |b| && b[o..] == Echo(kind, code, check, id, sequence, payload)
    ensures |b| >= o + 8 && b[o] == kind && b[o + 1] == code
  {
    assert |b[o..]| == 8 + |payload|;
    assert b[o] == b[o..][0] && b[o + 1] == b[o..][1];
  }

  lemma EchoRead(b: seq<byte>, o: nat, kind: byte, code: byte, check: u16, id: u16, sequence: u16, payload: seq<byte>)
    requires LiesAt(b, o, Echo(kind, code, check, id, sequence, payload)) && |b| > 22
    requires kind == 0 || kind == 8
    ensures IcmpRead(b, o) == Some(IcmpTypeText(kind) + "   " + EchoText(id, sequence, b[22]))
  {
    var d := Echo(kind, code, check, id, sequence, payload);
    assert U16(d, 4) == id && U16(d, 6) == sequence && d[0] == kind;
    hide EchoText, LiesAt, Echo;
    ByteAt(b, o, d, 0);
    WordAt(b, o, d, 4);
    WordAt(b, o, d, 6);
    WordInside(b, o + 4);
    WordInside(b, o + 6);
  }

  /** An ICMP echo request or reply is accepted, and its row shows identifier, sequence number and TTL. */
  lemma EchoFrameDecodes(macs: seq<byte>, h: IpHeader, kind: byte, code: byte, check: u16, id: u16, sequence: u16,
                         payload: seq<byte>)
    requires |macs| == 12 && ValidIp(h) && (kind == 0 || kind == 8)
    ensures Decode(Frame(macs, h, 1, Echo(kind, code, check, id, sequence, payload)))
         == Accepted(Packet("ICMP",
              (if kind == 0 then "Echo Reply" else "Echo Request") + "   " + EchoText(id, sequence, h.ttl),
              h.src, h.dst, h.totalLen + 14))
  {
    var d := Echo(kind, code, check, id, sequence, payload);
    var b := Frame(macs, h, 1, d);
    IpPart(macs, h, 1, d);
    HeadLiesAt(b, Transport(b), d, []);
    hide Frame, LiesAt, Echo, EchoText, Decode, IcmpRead, Transport;
    EchoRead(b, Transport(b), kind, code, check, id, sequence, payload);
    IcmpDecoded(b);
  }

  /** The text of a message that is no echo, by type and code. */
  ghost predicate MessageText(kind: byte, code: byte, text: string) {
    && (kind == 3 && code == 0 ==> text == "Destination Unreachable" + "   " + "Network Unreachable")
    && (kind == 3 && code == 1 ==> text == "Destination Unreachable" + "   " + "Host Unreachable")
    && (kind == 3 && code == 3 ==> text == "Destination Unreachable" + "   " + "Port Unreachable")
    && (kind == 3 && code !in {0, 1, 3} ==> text == "Destination Unreachable" + "   " + "")
    && (kind == 5 ==> text == "Redirect" + "   " + "")
    && (kind == 11 && code == 0 ==> text == "Time Exceeded" + "   " + "TTL exceeded")
    && (kind == 11 && code == 1 ==> text == "Time Exceeded" + "   " + "fragment reassembly time exceeded")
    && (kind == 11 && code !in {0, 1} ==> text == "Time Exceeded" + "   " + "")
    && (kind !in {0, 3, 5, 8, 11} ==> text == "" + "   " + "")
  }

  lemma MessageRead(b: seq<byte>, t: nat)
    requires |b| >= t + 2 && b[t] != 0 && b[t] != 8
    ensures IcmpRead(b, t).Some? && MessageText(b[t], b[t + 1], IcmpRead(b, t).value)
  {
    hide ReadU16, EchoText;
    var kind, code := b[t], b[t + 1];
    var detail := if kind == 3 then UnreachableText(code) else if kind == 11 then ExceededText(code) else "";
    assert IcmpDetail(b, t, kind) == Some(detail);
    hide IcmpDetail;
    assert IcmpRead(b, t) == Some(IcmpTypeText(kind) + "   " + detail);
  }

  /** Any other ICMP message is accepted, and its row shows the names of its type and code. */
  lemma MessageFrameDecodes(macs: seq<byte>, h: IpHeader, kind: byte, code: byte, rest: seq<byte>)
    requires |macs| == 12 && ValidIp(h) && kind != 0 && kind != 8
    ensures var o := Decode(Frame(macs, h, 1, [kind, code] + rest));
      && o.Accepted? && o.packet.proto == "ICMP" && MessageText(kind, code, o.packet.info)
      && o.packet.src == h.src && o.packet.dst == h.dst && o.packet.len == h.totalLen + 14
  {
    hide Frame, Decode, IcmpRead, MessageText, Transport;
    var b := Frame(macs, h, 1, [kind, code] + rest);
    IpPart(macs, h, 1, [kind, code] + rest);
    var t := Transport(b);
    assert b[t..][0] == kind && b[t..][1] == code;
    MessageRead(b, t);
    IcmpDecoded(b);
  }
}
