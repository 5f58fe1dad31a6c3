/** Reading the info column back: the TCP line determines every field it shows. */
module InfoLine {
  import opened Wrappers
  import opened Bytes
  import opened Numerals
  import opened Decoder

  function ReadPorts(s: string): Option<(nat, nat, string)> {
    var (src, s1) :- ReadNat(s);
    var s2 :- Expect(s1, " ---> ");
    var (dst, s3) :- ReadNat(s2);
    Some((src, dst, s3))
  }

  /** An optional word: present exactly when the text starts with it. */
  function ReadWord(s: string, word: string): (bool, string) {
    if word <= s then (true, s[|word|..]) else (false, s)
  }

  datatype SixFlags = SixFlags(syn: bool, ack: bool, fin: bool, rst: bool, psh: bool, urg: bool)

  function ReadFlags(s: string): Option<(SixFlags, string)> {
    var s0 :- Expect(s, "   [ ");
    var (syn, s1) := ReadWord(s0, "SYN ");
    var (ack, s2) := ReadWord(s1, "ACK ");
    var (fin, s3) := ReadWord(s2, "FIN ");
    var (rst, s4) := ReadWord(s3, "RST ");
    var (psh, s5) := ReadWord(s4, "PSH ");
    var (urg, s6) := ReadWord(s5, "URG ");
    var s7 :- Expect(s6, "]   ");
    Some((SixFlags(syn, ack, fin, rst, psh, urg), s7))
  }

  function ReadLabelled(s: string, name: string): Option<(nat, string)> {
    var s1 :- Expect(s, name);
    ReadNat(s1)
  }

  function ReadNumbers(s: string): Option<(nat, nat, nat, int)> {
    var (sequence, s1) :- ReadLabelled(s, "Seq=");
    var (ackSeq, s2) :- ReadLabelled(s1, "   Ack=");
    var (window, s3) :- ReadLabelled(s2, "   Win=");
    var s4 :- Expect(s3, "   Len=");
    var (len, rest) :- ReadInt(s4);
    if rest == "" then Some((sequence, ackSeq, window, len)) else None
  }

  function ReadTcpLine(s: string): Option<TcpFields> {
    var (src, dst, s1) :- ReadPorts(s);
    var (f, s2) :- ReadFlags(s1);
    var (sequence, ackSeq, window, len) :- ReadNumbers(s2);
    Some(TcpFields(src, dst, f.syn, f.ack, f.fin, f.rst, f.psh, f.urg, sequence, ackSeq, window, len))
  }

  // ---------- the reader undoes the printer ----------

  lemma JoinThree(a: string, b: string, c: string)
    ensures Join([a, b, c]) == a + (b + c)
  {
    var p := [a, b, c];
    JoinFrom(p, 0);
    JoinFrom(p, 1);
    JoinFrom(p, 2);
    assert p[0..] == p && p[3..] == [];
  }

  lemma ReadPortsOk(src: nat, dst: nat, rest: string)
    requires rest == "" || !IsDigit(rest[0])
    ensures ReadPorts(Join(PortParts(src, dst)) + rest) == Some((src, dst, rest))
  {
    var p := PortParts(src, dst);
    JoinThree(p[0], p[1], p[2]);
    var t2 := Dec(dst) + rest;
    var t1 := " ---> " + t2;
    assert Join(p) + rest == Dec(src) + t1;
    assert t1[0] == ' ';
    ReadNatDec(src, t1);
    ExpectOk(" ---> ", t2);
    ReadNatDec(dst, rest);
  }

  lemma ReadWordOk(on: bool, word: string, rest: string)
    requires word != "" && rest != "" && rest[0] != word[0]
    ensures ReadWord(FlagWord(on, word) + rest, word) == (on, rest)
    ensures (FlagWord(on, word) + rest)[0] in {word[0], rest[0]}
  {
    if on {
      assert (word + rest)[|word|..] == rest;
    } else {
      assert "" + rest == rest;
    }
  }

  lemma JoinStep(p: seq<string>, k: nat, rest: string)
    requires k < |p|
    ensures Join(p[k..]) + rest == p[k] + (Join(p[k + 1..]) + rest)
  {
    JoinFrom(p, k);
  }

  lemma JoinEight(p: seq<string>, rest: string)
    requires |p| == 8
    ensures Join(p) + rest
         == p[0] + (p[1] + (p[2] + (p[3] + (p[4] + (p[5] + (p[6] + (p[7] + rest)))))))
  {
    assert p[0..] == p;
    assert Join(p[8..]) + rest == rest by {
      assert p[8..] == [];
    }
    hide Join;
    JoinStep(p, 7, rest);
    JoinStep(p, 6, rest);
    JoinStep(p, 5, rest);
    JoinStep(p, 4, rest);
    JoinStep(p, 3, rest);
    JoinStep(p, 2, rest);
    JoinStep(p, 1, rest);
    JoinStep(p, 0, rest);
  }

  lemma ReadFlagsOk(f: TcpFields, rest: string)
    ensures ReadFlags(Join(FlagParts(f)) + rest)
         == Some((SixFlags(f.syn, f.ack, f.fin, f.rst, f.psh, f.urg), rest))
  {
    var p := FlagParts(f);
    var t7 := "]   " + rest;
    var t6 := p[6] + t7;
    var t5 := p[5] + t6;
    var t4 := p[4] + t5;
    var t3 := p[3] + t4;
    var t2 := p[2] + t3;
    var t1 := p[1] + t2;
    assert Join(p) + rest == p[0] + t1 by {
      JoinEight(p, rest);
    }
    assert t7[0] == ']';
    ReadWordOk(f.urg, "URG ", t7);
    ReadWordOk(f.psh, "PSH ", t6);
    ReadWordOk(f.rst, "RST ", t5);
    ReadWordOk(f.fin, "FIN ", t4);
    ReadWordOk(f.ack, "ACK ", t3);
    ReadWordOk(f.syn, "SYN ", t2);
    ExpectOk("   [ ", t1);
    ExpectOk("]   ", rest);
  }

  lemma ReadLabelledOk(name: string, n: nat, rest: string)
    requires rest == "" || !IsDigit(rest[0])
    ensures ReadLabelled(name + (Dec(n) + rest), name) == Some((n, rest))
  {
    ExpectOk(name, Dec(n) + rest);
    ReadNatDec(n, rest);
  }

  lemma ReadNumbersOk(f: TcpFields)
    ensures ReadNumbers(Join(NumberParts(f))) == Some((f.sequence, f.ackSeq, f.window, f.len))
  {
    var p := NumberParts(f);
    JoinEight(p, "");
    assert Join(p) + "" == Join(p);
    var t6 := p[6] + (p[7] + "");
    var t4 := p[4] + (p[5] + t6);
    var t2 := p[2] + (p[3] + t4);
    assert t6[0] == ' ' && t4[0] == ' ' && t2[0] == ' ';
    ReadLabelledOk("Seq=", f.sequence, t2);
    ReadLabelledOk("   Ack=", f.ackSeq, t4);
    ReadLabelledOk("   Win=", f.window, t6);
    ExpectOk("   Len=", Signed(f.len) + "");
    ReadIntSigned(f.len, "");
  }

  /** The TCP info line is uniquely readable. */
  lemma TcpLineReadable(f: TcpFields)
    ensures ReadTcpLine(TcpLine(f)) == Some(f)
  {
    var flags, numbers := Join(FlagParts(f)), Join(NumberParts(f));
    JoinConcat(PortParts(f.src, f.dst), FlagParts(f));
    JoinConcat(PortParts(f.src, f.dst) + FlagParts(f), NumberParts(f));
    assert TcpLine(f) == Join(PortParts(f.src, f.dst)) + (flags + numbers);
    assert (flags + numbers)[0] == ' ' by {
      JoinFrom(FlagParts(f), 0);
      assert FlagParts(f)[0..] == FlagParts(f);
    }
    ReadPortsOk(f.src, f.dst, flags + numbers);
    ReadFlagsOk(f, numbers);
    ReadNumbersOk(f);
  }

  function ReadUdpLine(s: string): Option<(nat, nat, int)> {
    var (src, dst, s1) :- ReadPorts(s);
    var s2 :- Expect(s1, "   Len=");
    var (len, rest) :- ReadInt(s2);
    if rest == "" then Some((src, dst, len)) else None
  }

  /** The UDP info line is uniquely readable, also when the length field is less than the header's 8 bytes. */
  lemma UdpLineReadable(src: nat, dst: nat, len: int)
    ensures ReadUdpLine(UdpLine(src, dst, len)) == Some((src, dst, len))
  {
    var p := ["   Len=", Signed(len)];
    JoinConcat(PortParts(src, dst), p);
    JoinFrom(p, 0);
    JoinFrom(p, 1);
    assert p[0..] == p && p[2..] == [];
    var tail := "   Len=" + (Signed(len) + "");
    assert Join(p) == tail;
    ReadPortsOk(src, dst, tail);
    ExpectOk("   Len=", Signed(len) + "");
    ReadIntSigned(len, "");
  }

  // ---------- the ICMP echo line ----------

  const ECHO_REPLY := "Echo Reply   "

  const ECHO_REQUEST := "Echo Request   "

  function ReadEchoNumbers(s: string): Option<(nat, nat, nat)> {
    var (id, s1) :- ReadLabelled(s, "id=");
    var (sequence, s2) :- ReadLabelled(s1, "   seq=");
    var (ttl, rest) :- ReadLabelled(s2, "   ttl=");
    if rest == "" then Some((id, sequence, ttl)) else None
  }

  datatype EchoFields = EchoFields(kind: byte, id: nat, sequence: nat, ttl: nat)

  function ReadEchoLine(s: string): Option<EchoFields> {
    var kind := if ECHO_REPLY <= s then 0 else 8;
    var numbers :- Expect(s, if kind == 0 then ECHO_REPLY else ECHO_REQUEST);
    var (id, sequence, ttl) :- ReadEchoNumbers(numbers);
    Some(EchoFields(kind, id, sequence, ttl))
  }

  lemma EchoTextReadable(id: nat, sequence: nat, ttl: nat)
    ensures ReadEchoNumbers(EchoText(id, sequence, ttl)) == Some((id, sequence, ttl))
  {
    var t2 := "   ttl=" + (Dec(ttl) + "");
    var t1 := "   seq=" + (Dec(sequence) + t2);
    var t0 := "id=" + (Dec(id) + t1);
    assert EchoText(id, sequence, ttl) == t0;
    assert t1[0] == ' ' && t2[0] == ' ';
    hide Dec, ReadLabelled, EchoText;
    ReadLabelledOk("id=", id, t1);
    ReadLabelledOk("   seq=", sequence, t2);
    ReadLabelledOk("   ttl=", ttl, "");
  }

  /** A reader recovers the message type, identifier, sequence number and TTL from the line of an echo. */
  lemma EchoLineReadable(f: EchoFields)
    requires f.kind == 0 || f.kind == 8
    ensures ReadEchoLine(IcmpTypeText(f.kind) + "   " + EchoText(f.id, f.sequence, f.ttl)) == Some(f)
  {
    hide EchoText, ReadEchoNumbers;
    var name := if f.kind == 0 then ECHO_REPLY else ECHO_REQUEST;
    var numbers := EchoText(f.id, f.sequence, f.ttl);
    var line := IcmpTypeText(f.kind) + "   " + numbers;
    assert line == name + numbers;
    assert f.kind == 8 ==> line[5] == 'R' && line[6] == 'e' && line[7] == 'q';
    ExpectOk(name, numbers);
    EchoTextReadable(f.id, f.sequence, f.ttl);
  }

  /** Two accepted TCP frames with the same info text agree on every field the line shows. */
  lemma EqualLinesEqualFields(b: seq<byte>, c: seq<byte>)
    requires Ipv4Framed(b) && TcpFramed(b) && Ipv4Framed(c) && TcpFramed(c)
    requires Protocol(b) == 6 && Protocol(c) == 6
    ensures Decode(b).Accepted? && Decode(c).Accepted?
    ensures Decode(b).packet.info == Decode(c).packet.info <==> TcpFieldsOf(b) == TcpFieldsOf(c)
  {
    hide Decode, TcpLine;
    TcpDecoded(b);
    TcpDecoded(c);
    TcpLineReadable(TcpFieldsOf(b));
    TcpLineReadable(TcpFieldsOf(c));
  }
}
