/** Opening the detail tree of a row, in any reachable state of the session. */
module DetailView {
  import opened Bytes
  import opened Wrappers
  import opened Decoder
  import opened HeaderReads
  import opened Agreement
  import opened Address
  import opened Rows
  import opened Records
  import opened Protocol
  import opened Guarantees
  import opened InfoLine
  import opened Tree
  import opened PacketTree
  import opened TreeTexts
  import opened Replay

  /** The tree of the packet with a row's number shows what the row shows. */
  predicate SameAsRow(r: Row, d: Detail) {
    && r.src == Dotted(d.src) && r.dst == Dotted(d.dst) && r.len == d.totalLen + ETHER_LEN
    && SameLayer(r.proto, r.info, d.ttl, d.layer)
  }

  lemma TreeOfPacket(d: Dump)
    requires Complete(d)
    ensures TreeRead(d.data).None? <==> OneByteIcmp(d.data)
    ensures TreeRead(d.data).Some? ==> SameAsRow(RowOfDump(d), TreeRead(d.data).value)
  {
    hide TreeRead, OneByteIcmp, SameLayer, Dotted;
    TreeStaysInsideIff(d.data);
    if TreeRead(d.data).Some? {
      ListAndTreeAgree(d.data);
    }
  }

  /**
   Opening the tree of any row shown, in any reachable state: the reads of the tree leave the stored bytes exactly
   when the row is the half delivered one, or an ICMP message of one byte; otherwise the tree shows what the row
   shows, with the transport layer the row names.
   */
  lemma TreeShowsRow(s: State, r: Row)
    requires Inv(s) && r in s.main.list.vec
    ensures var b := BytesAt(s.main.dumps, r.num);
      && (TreeRead(b).None? <==> (HalfDelivered(s).Some? && r.num == |s.main.dumps|) || OneByteIcmp(b))
      && (TreeRead(b).Some? ==> SameAsRow(r, TreeRead(b).value))
  {
    hide Inv, HalfDelivered, TreeRead, OneByteIcmp, SameAsRow, Complete, RowOfDump;
    RowsMatchDumps(s);
    var ds := s.main.dumps;
    FindNumbered(ds, r.num);
    if r.num < |ds| {
      TreeOfPacket(ds[r.num]);
    } else {
      TooShortForTree([]);
    }
  }

  ghost predicate StartsWith(info: string, name: string) {
    name + "   " <= info
  }

  /** The texts of the tree built for a row carry what a reader recovers from the row. */
  ghost predicate SaysRow(items: seq<TreeItem>, r: Row)
    requires |items| >= 23
  {
    && items[21].title == "Source Address: " + r.src && items[22].title == "Destination Address: " + r.dst
    && r.proto in {"TCP", "UDP", "ICMP"}
    && (r.proto == "TCP" ==>
          var f := ReadTcpLine(r.info);
          && f.Some?
          && SaysTcp(items, f.value.src, f.value.dst, f.value.sequence, f.value.ackSeq, f.value.len, f.value.window))
    && (r.proto == "UDP" ==>
          var f := ReadUdpLine(r.info);
          f.Some? && SaysUdp(items, f.value.0, f.value.1, f.value.2 + 8))
    && (r.proto == "ICMP" ==>
          && |items| == 26 && StartsWith(r.info, items[24].title)
          && exists kind: byte, code: byte :: SaysIcmp(items, kind, code))
  }

  lemma SaysAddresses(items: seq<TreeItem>, d: Detail, caption: nat -> string)
    requires BuiltFrom(items, d, caption)
    ensures |items| >= 23
    ensures items[21].title == "Source Address: " + Dotted(d.src)
    ensures items[22].title == "Destination Address: " + Dotted(d.dst)
  {
    hide BuiltFrom, Dotted;
    SomeItems(items, d, caption);
  }

  lemma EchoLineStarts(info: string, ttl: byte, kind: byte, code: byte)
    requires SameMessage(info, ttl, kind, code)
    ensures StartsWith(info, IcmpTypeText(kind))
  {
    hide ReadEchoNumbers;
    if kind == 0 {
      assert ECHO_REPLY == IcmpTypeText(0) + "   ";
    } else if kind == 8 {
      assert ECHO_REQUEST == IcmpTypeText(8) + "   ";
    }
  }

  lemma TreeSaysLayer(items: seq<TreeItem>, r: Row, d: Detail, caption: nat -> string)
    requires BuiltFrom(items, d, caption) && SameLayer(r.proto, r.info, d.ttl, d.layer)
    requires |items| >= 23
    requires items[21].title == "Source Address: " + r.src && items[22].title == "Destination Address: " + r.dst
    ensures SaysRow(items, r)
  {
    hide BuiltFrom, SaysTcp, SaysUdp, ReadTcpLine, ReadUdpLine, SameMessage, StartsWith, SameFlags;
    SaysLayer(items, d, caption);
    if d.layer.IcmpLayer? {
      EchoLineStarts(r.info, d.ttl, d.layer.kind, d.layer.code);
    }
  }

  /** In every reachable state, the tree built for a shown row says what the row says. */
  lemma TreeSaysRow(s: State, r: Row, d: Detail, caption: nat -> string, items: seq<TreeItem>)
    requires Inv(s) && r in s.main.list.vec
    requires TreeRead(BytesAt(s.main.dumps, r.num)) == Some(d) && BuiltFrom(items, d, caption)
    ensures |items| >= 23 && SaysRow(items, r)
  {
    hide Inv, HalfDelivered, TreeRead, SameLayer, SaysRow, BuiltFrom, OneByteIcmp, BytesAt;
    TreeShowsRow(s, r);
    SaysAddresses(items, d, caption);
    TreeSaysLayer(items, r, d, caption);
  }
}
