/**
 The frame decoder shared by the live handler and the file reader. A read past the captured bytes, which the C++ code
 does not guard for UDP and ICMP, is an explicit outcome.
 */
module Decoder {
  import opened Wrappers
  import opened Bytes
  import opened Numerals

  const ETHER_LEN := 14

  const IP_MIN_LEN := 20

  const TCP_MIN_LEN := 20

  datatype Addr = Addr(a: byte, b: byte, c: byte, d: byte)

  /** What the packet list shows of an accepted frame, apart from its number. */
  datatype Packet = Packet(proto: string, info: string, src: Addr, dst: Addr, len: int)

  datatype Outcome =
    | Rejected
    | Overread
    | Accepted(packet: Packet)

  datatype TcpFields = TcpFields(
    src: nat, dst: nat,
    syn: bool, ack: bool, fin: bool, rst: bool, psh: bool, urg: bool,
    sequence: nat, ackSeq: nat, window: nat, len: int)

  // ---------- header fields ----------

  function Ihl(b: seq<byte>): (n: nat)
    requires |b| > 14
    ensures n < 16
  {
    b[14] % 16
  }

  /** Offset of the transport header. */
  function Transport(b: seq<byte>): nat
    requires |b| > 14
  {
    ETHER_LEN + Ihl(b) * 4
  }

  function Protocol(b: seq<byte>): byte
    requires |b| > 23
  {
    b[23]
  }

  function TotalLength(b: seq<byte>): (n: nat)
    requires |b| > 17
    ensures n < 0x1_0000
  {
    U16(b, 16)
  }

  function AddrAt(b: seq<byte>, i: nat): Addr
    requires i + 3 < |b|
  {
    Addr(b[i], b[i + 1], b[i + 2], b[i + 3])
  }

  function Doff(b: seq<byte>, t: nat): (n: nat)
    requires t + 12 < |b|
    ensures n < 16
  {
    b[t + 12] as nat / 16
  }

  /** The checks made before the protocol is looked at. */
  predicate Ipv4Framed(b: seq<byte>) {
    && |b| >= ETHER_LEN + IP_MIN_LEN
    && U16(b, 12) == 0x0800
    && Ihl(b) >= 5
    && |b| >= Transport(b)
  }

  predicate TcpFramed(b: seq<byte>)
    requires Ipv4Framed(b)
  {
    var t := Transport(b);
    && |b| >= t + TCP_MIN_LEN
    && Doff(b, t) >= 5
    && |b| >= t + Doff(b, t) * 4
  }

  // ---------- info lines ----------

  /** The list's payload length: `uint32_t` arithmetic converted back to `int`. */
  function ListPayloadLen(totalLen: nat, ihl: nat, doff: nat): int {
    Uint32ToInt(ToUint32(totalLen as int - ihl * 4 - doff * 4))
  }

  function TcpFieldsOf(b: seq<byte>): TcpFields
    requires Ipv4Framed(b) && TcpFramed(b)
  {
    var t := Transport(b);
    var flags := b[t + 13];
    TcpFields(U16(b, t), U16(b, t + 2),
              Bit(flags, 1), Bit(flags, 4), Bit(flags, 0), Bit(flags, 2), Bit(flags, 3), Bit(flags, 5),
              U32(b, t + 4), U32(b, t + 8), U16(b, t + 14),
              ListPayloadLen(TotalLength(b), Ihl(b), Doff(b, t)))
  }

  function FlagWord(on: bool, word: string): string {
    if on then word else ""
  }

  function PortParts(src: nat, dst: nat): seq<string> {
    [Dec(src), " ---> ", Dec(dst)]
  }

  /** The pieces of the TCP info line, in the order they are appended. */
  function FlagParts(f: TcpFields): seq<string> {
    ["   [ ", FlagWord(f.syn, "SYN "), FlagWord(f.ack, "ACK "), FlagWord(f.fin, "FIN "),
     FlagWord(f.rst, "RST "), FlagWord(f.psh, "PSH "), FlagWord(f.urg, "URG "), "]   "]
  }

  function NumberParts(f: TcpFields): seq<string> {
    ["Seq=", Dec(f.sequence), "   Ack=", Dec(f.ackSeq), "   Win=", Dec(f.window), "   Len=", Signed(f.len)]
  }

  function TcpParts(f: TcpFields): seq<string> {
    PortParts(f.src, f.dst) + FlagParts(f) + NumberParts(f)
  }

  function TcpLine(f: TcpFields): string {
    Join(TcpParts(f))
  }

  function UdpLine(src: nat, dst: nat, len: int): string {
    Join(PortParts(src, dst) + ["   Len=", Signed(len)])
  }

  function IcmpTypeText(kind: byte): string {
    match kind
    case 0 => "Echo Reply"
    case 3 => "Destination Unreachable"
    case 5 => "Redirect"
    case 8 => "Echo Request"
    case 11 => "Time Exceeded"
    case _ => ""
  }

  function UnreachableText(code: byte): string {
    match code
    case 0 => "Network Unreachable"
    case 1 => "Host Unreachable"
    case 3 => "Port Unreachable"
    case _ => ""
  }

  function ExceededText(code: byte): string {
    match code
    case 0 => "TTL exceeded"
    case 1 => "fragment reassembly time exceeded"
    case _ => ""
  }

  // ---------- the decoder ----------

  /** The fields of the TCP line, in the order they are read through the header pointers. */
  function TcpRead(b: seq<byte>, ihl: nat): Option<TcpFields> {
    var t := ETHER_LEN + ihl * 4;
    var src :- ReadU16(b, t);
    var dst :- ReadU16(b, t + 2);
    var words :- ReadU8(b, t + 12);
    var flags :- ReadU8(b, t + 13);
    var sequence :- ReadU32(b, t + 4);
    var ackSeq :- ReadU32(b, t + 8);
    var window :- ReadU16(b, t + 14);
    var totalLen :- ReadU16(b, 16);
    Some(TcpFields(src, dst,
                   Bit(flags, 1), Bit(flags, 4), Bit(flags, 0), Bit(flags, 2), Bit(flags, 3), Bit(flags, 5),
                   sequence, ackSeq, window, ListPayloadLen(totalLen, ihl, words as nat / 16)))
  }

  /** The UDP branch reads three words and checks nothing. */
  function UdpRead(b: seq<byte>, t: nat): Option<string> {
    var src :- ReadU16(b, t);
    var dst :- ReadU16(b, t + 2);
    var len :- ReadU16(b, t + 4);
    Some(UdpLine(src, dst, len as int - 8))
  }

  function EchoText(id: nat, sequence: nat, ttl: nat): string {
    "id=" + Dec(id) + "   " + "seq=" + Dec(sequence) + "   " + "ttl=" + Dec(ttl)
  }

  /** What the ICMP line shows after the type, read without a check. */
  function IcmpDetail(b: seq<byte>, t: nat, kind: byte): Option<string> {
    if kind == 3 then
      var code :- ReadU8(b, t + 1);
      Some(UnreachableText(code))
    else if kind == 11 then
      var code :- ReadU8(b, t + 1);
      Some(ExceededText(code))
    else if kind == 0 || kind == 8 then
      var id :- ReadU16(b, t + 4);
      var sequence :- ReadU16(b, t + 6);
      var ttl :- ReadU8(b, 22);
      Some(EchoText(id, sequence, ttl))
    else Some("")
  }

  function IcmpRead(b: seq<byte>, t: nat): Option<string> {
    var kind :- ReadU8(b, t);
    var detail :- IcmpDetail(b, t, kind);
    Some(IcmpTypeText(kind) + "   " + detail)
  }

  function ReadAddr(b: seq<byte>, i: nat): Option<Addr> {
    var x :- ReadU8(b, i);
    var y :- ReadU8(b, i + 1);
    var z :- ReadU8(b, i + 2);
    var w :- ReadU8(b, i + 3);
    Some(Addr(x, y, z, w))
  }

  /** The rest of a row, once its protocol and info text are known. */
  function PacketRead(b: seq<byte>, proto: string, info: string): Option<Option<Packet>> {
    var src :- ReadAddr(b, 26);
    var dst :- ReadAddr(b, 30);
    var totalLen :- ReadU16(b, 16);
    Some(Some(Packet(proto, info, src, dst, totalLen + ETHER_LEN)))
  }

  /** The TCP branch: the only one with length checks of its own. */
  function TcpBranch(b: seq<byte>, ihl: nat): Option<Option<Packet>> {
    var t := ETHER_LEN + ihl * 4;
    if |b| < t + TCP_MIN_LEN then Some(None) else
      var words :- ReadU8(b, t + 12);
      if words as nat / 16 < 5 || |b| < t + words as nat / 16 * 4 then Some(None) else
        var f :- TcpRead(b, ihl);
        PacketRead(b, "TCP", TcpLine(f))
  }

  function UdpBranch(b: seq<byte>, t: nat): Option<Option<Packet>> {
    var info :- UdpRead(b, t);
    PacketRead(b, "UDP", info)
  }

  function IcmpBranch(b: seq<byte>, t: nat): Option<Option<Packet>> {
    var info :- IcmpRead(b, t);
    PacketRead(b, "ICMP", info)
  }

  /**
   The decoder on a frame of which exactly the bytes b were captured, with the length checks of the program and no
   others: None when one of its reads lies past them, Some(None) when it drops the frame.
   */
  function ListRead(b: seq<byte>): Option<Option<Packet>> {
    if |b| < ETHER_LEN then Some(None) else
      var etherType :- ReadU16(b, 12);
      if etherType != 0x0800 || |b| < ETHER_LEN + IP_MIN_LEN then Some(None) else
        var first :- ReadU8(b, 14);
        var ihl := first % 16;
        if ihl < 5 || |b| < ETHER_LEN + ihl * 4 then Some(None) else
          var proto :- ReadU8(b, 23);
          if proto == 6 then TcpBranch(b, ihl)
          else if proto == 17 then UdpBranch(b, ETHER_LEN + ihl * 4)
          else if proto == 1 then IcmpBranch(b, ETHER_LEN + ihl * 4)
          else Some(None)
  }

  function Decode(b: seq<byte>): Outcome {
    match ListRead(b)
    case None => Overread
    case Some(None) => Rejected
    case Some(Some(p)) => Accepted(p)
  }

  // ---------- the decoder, branch by branch ----------

  lemma ReadAddrInside(b: seq<byte>, i: nat)
    ensures ReadAddr(b, i) == if i + 3 < |b| then Some(AddrAt(b, i)) else None
  {
  }

  function PacketOf(b: seq<byte>, proto: string, info: string): Packet
    requires Ipv4Framed(b)
  {
    Packet(proto, info, AddrAt(b, 26), AddrAt(b, 30), TotalLength(b) + ETHER_LEN)
  }

  lemma PacketReadInside(b: seq<byte>, proto: string, info: string)
    requires Ipv4Framed(b)
    ensures PacketRead(b, proto, info) == Some(Some(PacketOf(b, proto, info)))
  {
    ReadAddrInside(b, 26);
    ReadAddrInside(b, 30);
    WordInside(b, 16);
  }

  /** The checks before the branches, and the branch taken. */
  lemma BranchOf(b: seq<byte>)
    ensures ListRead(b)
         == if !Ipv4Framed(b) then Some(None)
            else if Protocol(b) == 6 then TcpBranch(b, Ihl(b))
            else if Protocol(b) == 17 then UdpBranch(b, Transport(b))
            else if Protocol(b) == 1 then IcmpBranch(b, Transport(b))
            else Some(None)
  {
    hide TcpBranch, UdpBranch, IcmpBranch;
    WordInside(b, 12);
  }

  /** The length checks of the TCP branch cover every read it makes. */
  lemma TcpReadInside(b: seq<byte>)
    requires Ipv4Framed(b) && TcpFramed(b)
    ensures TcpRead(b, Ihl(b)) == Some(TcpFieldsOf(b))
  {
    var t := Transport(b);
    hide ListPayloadLen, Bit;
    WordInside(b, t);
    WordInside(b, t + 2);
    DoubleInside(b, t + 4);
    DoubleInside(b, t + 8);
    WordInside(b, t + 14);
    WordInside(b, 16);
  }

  lemma TcpDecoded(b: seq<byte>)
    requires Ipv4Framed(b) && Protocol(b) == 6
    ensures Decode(b) == if TcpFramed(b) then Accepted(PacketOf(b, "TCP", TcpLine(TcpFieldsOf(b)))) else Rejected
  {
    BranchOf(b);
    hide ListRead, PacketRead, TcpRead, TcpLine;
    if TcpFramed(b) {
      TcpReadInside(b);
      PacketReadInside(b, "TCP", TcpLine(TcpFieldsOf(b)));
    }
  }

  lemma UdpDecoded(b: seq<byte>)
    requires Ipv4Framed(b) && Protocol(b) == 17
    ensures var t := Transport(b);
      Decode(b) == if |b| < t + 6 then Overread
                   else Accepted(PacketOf(b, "UDP", UdpLine(U16(b, t), U16(b, t + 2), U16(b, t + 4) as int - 8)))
  {
    var t := Transport(b);
    BranchOf(b);
    hide ListRead, PacketRead, UdpLine;
    WordInside(b, t);
    WordInside(b, t + 2);
    WordInside(b, t + 4);
    if |b| >= t + 6 {
      PacketReadInside(b, "UDP", UdpLine(U16(b, t), U16(b, t + 2), U16(b, t + 4) as int - 8));
    }
  }

  lemma IcmpDecoded(b: seq<byte>)
    requires Ipv4Framed(b) && Protocol(b) == 1
    ensures var info := IcmpRead(b, Transport(b));
      Decode(b) == if info.None? then Overread else Accepted(PacketOf(b, "ICMP", info.value))
  {
    BranchOf(b);
    hide ListRead, PacketRead, IcmpRead;
    var info := IcmpRead(b, Transport(b));
    if info.Some? {
      PacketReadInside(b, "ICMP", info.value);
    }
  }

  /** What is accepted is a framed IPv4 packet of one of the three protocols, named in its row. */
  lemma AcceptedFrame(b: seq<byte>)
    requires Decode(b).Accepted?
    ensures Ipv4Framed(b)
    ensures var p := Decode(b).packet;
      || (Protocol(b) == 6 && TcpFramed(b) && p == PacketOf(b, "TCP", TcpLine(TcpFieldsOf(b))))
      || (Protocol(b) == 17 && |b| >= Transport(b) + 6 && p.proto == "UDP")
      || (Protocol(b) == 1 && |b| > Transport(b) && p.proto == "ICMP")
  {
    BranchOf(b);
    hide ListRead, TcpLine, UdpLine, IcmpDetail, TcpBranch, UdpBranch, IcmpBranch;
    if Protocol(b) == 6 {
      TcpDecoded(b);
    } else if Protocol(b) == 17 {
      UdpDecoded(b);
    } else if Protocol(b) == 1 {
      IcmpDecoded(b);
    }
  }

  // ---------- the decoder, as it runs ----------

  /** `qs += x`, where x is the next piece of the line being built. */
  method Append(qs: string, x: string, ghost parts: seq<string>, ghost k: nat) returns (r: string)
    requires k < |parts| && x == parts[k]
    requires qs == Join(parts[..k])
    ensures r == Join(parts[..k + 1])
  {
    JoinSnoc(parts[..k], x);
    assert parts[..k + 1] == parts[..k] + [x];
    r := qs + x;
  }

  /** The flag part of the TCP line; f holds the flags of the byte. */
  method FlagInfo(flags: byte, ghost f: TcpFields) returns (word: string)
    requires f.syn == Bit(flags, 1) && f.ack == Bit(flags, 4) && f.fin == Bit(flags, 0)
    requires f.rst == Bit(flags, 2) && f.psh == Bit(flags, 3) && f.urg == Bit(flags, 5)
    ensures word == Join(FlagParts(f))
  {
    hide Bit, FlagWord;
    ghost var p := FlagParts(f);
    word := Append("", "   [ ", p, 0);
    word := Append(word, FlagWord(Bit(flags, 1), "SYN "), p, 1);
    word := Append(word, FlagWord(Bit(flags, 4), "ACK "), p, 2);
    word := Append(word, FlagWord(Bit(flags, 0), "FIN "), p, 3);
    word := Append(word, FlagWord(Bit(flags, 2), "RST "), p, 4);
    word := Append(word, FlagWord(Bit(flags, 3), "PSH "), p, 5);
    word := Append(word, FlagWord(Bit(flags, 5), "URG "), p, 6);
    word := Append(word, "]   ", p, 7);
    assert p[..8] == p;
  }

  method NumberInfo(sequence: nat, ackSeq: nat, window: nat, payload: int, ghost f: TcpFields) returns (text: string)
    requires f.sequence == sequence && f.ackSeq == ackSeq && f.window == window && f.len == payload
    ensures text == Join(NumberParts(f))
  {
    ghost var p := NumberParts(f);
    text := Append("", "Seq=", p, 0);
    text := Append(text, Dec(sequence), p, 1);
    text := Append(text, "   Ack=", p, 2);
    text := Append(text, Dec(ackSeq), p, 3);
    text := Append(text, "   Win=", p, 4);
    text := Append(text, Dec(window), p, 5);
    text := Append(text, "   Len=", p, 6);
    text := Append(text, Signed(payload), p, 7);
    assert p[..8] == p;
  }

  method PortsInfo(src: nat, dst: nat) returns (text: string)
    ensures text == Join(PortParts(src, dst))
  {
    ghost var p := PortParts(src, dst);
    text := Append("", Dec(src), p, 0);
    text := Append(text, " ---> ", p, 1);
    text := Append(text, Dec(dst), p, 2);
    assert p[..3] == p;
  }

  /** Builds the TCP info line piece by piece, reading the header as it goes. */
  method TcpInfo(b: seq<byte>, ihl: nat) returns (info: Option<string>)
    ensures info == match TcpRead(b, ihl) case None => None case Some(f) => Some(TcpLine(f))
  {
    hide Bit, FlagParts, NumberParts, PortParts, Join, ReadU16, ReadU32;
    ghost var whole := TcpRead(b, ihl);
    var t := ETHER_LEN + ihl * 4;
    var src :- ReadU16(b, t);
    var dst :- ReadU16(b, t + 2);
    var words :- ReadU8(b, t + 12);
    var flags :- ReadU8(b, t + 13);
    var sequence :- ReadU32(b, t + 4);
    var ackSeq :- ReadU32(b, t + 8);
    var window :- ReadU16(b, t + 14);
    var totalLen :- ReadU16(b, 16);
    ghost var f := whole.value;
    var text := PortsInfo(src, dst);
    var word := FlagInfo(flags, f);
    JoinConcat(PortParts(f.src, f.dst), FlagParts(f));
    text := text + word;
    var headerLen := words as nat / 16 * 4;
    var payload := Uint32ToInt(ToUint32(totalLen as int - ihl * 4 - headerLen));
    var numbers := NumberInfo(sequence, ackSeq, window, payload, f);
    JoinConcat(PortParts(f.src, f.dst) + FlagParts(f), NumberParts(f));
    return Some(text + numbers);
  }

  method UdpInfo(b: seq<byte>, t: nat) returns (info: Option<string>)
    ensures info == UdpRead(b, t)
  {
    hide PortParts, ReadU16;
    var src :- ReadU16(b, t);
    var dst :- ReadU16(b, t + 2);
    var len :- ReadU16(b, t + 4);
    var text := PortsInfo(src, dst);
    ghost var p := ["   Len=", Signed(len as int - 8)];
    var tail := Append("", "   Len=", p, 0);
    tail := Append(tail, Signed(len as int - 8), p, 1);
    assert p[..2] == p;
    JoinConcat(PortParts(src, dst), p);
    return Some(text + tail);
  }

  method IcmpInfo(b: seq<byte>, t: nat) returns (info: Option<string>)
    ensures info == IcmpRead(b, t)
  {
    hide Dec, ReadU16;
    var kind :- ReadU8(b, t);
    var text := IcmpTypeText(kind);
    text := text + "   ";
    ghost var head := text;
    if kind == 3 {
      var code :- ReadU8(b, t + 1);
      text := text + UnreachableText(code);
    } else if kind == 11 {
      var code :- ReadU8(b, t + 1);
      text := text + ExceededText(code);
    } else if kind == 0 || kind == 8 {
      text := text + "id=";
      var id :- ReadU16(b, t + 4);
      text := text + Dec(id);
      text := text + "   ";
      text := text + "seq=";
      var sequence :- ReadU16(b, t + 6);
      text := text + Dec(sequence);
      text := text + "   ";
      text := text + "ttl=";
      var ttl :- ReadU8(b, 22);
      text := text + Dec(ttl);
      assert text == head + EchoText(id, sequence, ttl);
    } else {
      assert text == head + "";
    }
    return Some(text);
  }

  /** The decoder with the early returns of the program. */
  method ReadList(b: seq<byte>) returns (o: Option<Option<Packet>>)
    ensures o == ListRead(b)
  {
    hide TcpRead, UdpRead, IcmpRead, ReadU16, ReadAddr, TcpLine;
    if |b| < ETHER_LEN {
      return Some(None);
    }
    var etherType :- ReadU16(b, 12);
    if etherType != 0x0800 {
      return Some(None);
    }
    if |b| < ETHER_LEN + IP_MIN_LEN {
      return Some(None);
    }
    var first :- ReadU8(b, 14);
    var ihl := first % 16;
    if ihl < 5 {
      return Some(None);
    }
    var ipLen := ihl * 4;
    if |b| < ETHER_LEN + ipLen {
      return Some(None);
    }
    var t := ETHER_LEN + ipLen;
    var proto, info := "", "";
    var protocol :- ReadU8(b, 23);
    if protocol == 6 {
      if |b| < t + TCP_MIN_LEN {
        return Some(None);
      }
      var words :- ReadU8(b, t + 12);
      if words as nat / 16 < 5 {
        return Some(None);
      }
      if |b| < t + words as nat / 16 * 4 {
        return Some(None);
      }
      proto := "TCP";
      info :- TcpInfo(b, ihl);
    } else if protocol == 17 {
      proto := "UDP";
      info :- UdpInfo(b, t);
    } else if protocol == 1 {
      proto := "ICMP";
      info :- IcmpInfo(b, t);
    } else {
      return Some(None);
    }
    var src :- ReadAddr(b, 26);
    var dst :- ReadAddr(b, 30);
    var totalLen :- ReadU16(b, 16);
    return Some(Some(Packet(proto, info, src, dst, totalLen + ETHER_LEN)));
  }

  method DecodeFrame(b: seq<byte>) returns (o: Outcome)
    ensures o == Decode(b)
  {
    var r := ReadList(b);
    match r
    case None => return Overread;
    case Some(None) => return Rejected;
    case Some(Some(p)) => return Accepted(p);
  }
}
