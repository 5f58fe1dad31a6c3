/** Captured records, what is stored of them, and the rows they give. */
module Records {
  import opened Wrappers
  import opened Bytes
  import opened Decoder
  import opened Address
  import opened Rows
  import opened Capture

  /** `pcap_pkthdr`. */
  datatype Header = Header(ts: int, caplen: nat, len: nat)

  /** What libpcap hands over: a header and the bytes that may be read. */
  datatype Record = Record(header: Header, bytes: seq<byte>)

  /** One stored packet (`dump_data`). */
  datatype Dump = Dump(pktNum: nat, header: Header, data: seq<byte>)

  predicate Accepts(r: Record) {
    Decode(r.bytes).Accepted?
  }

  /** What libpcap promises of every record: exactly caplen bytes may be read. */
  predicate Captured(r: Record) {
    r.header.caplen == |r.bytes|
  }

  ghost predicate AllCaptured(frames: seq<Record>) {
    forall i | 0 <= i < |frames| :: Captured(frames[i])
  }

  /** The copy of len bytes that is stored: None when it would read past the captured ones. */
  function CopyRead(r: Record): Option<seq<byte>> {
    ReadSpan(r.bytes, 0, r.header.len)
  }

  /** A record whose handling never reads past the captured bytes, neither its headers nor for the copy. */
  predicate Readable(r: Record) {
    Decode(r.bytes) != Overread && (Accepts(r) ==> CopyRead(r).Some?)
  }

  ghost predicate AllReadable(frames: seq<Record>) {
    forall i | 0 <= i < |frames| :: Readable(frames[i])
  }

  /** The headers lie inside, and the copy of len bytes is the whole capture. */
  predicate Safe(r: Record) {
    && Captured(r)
    && Decode(r.bytes) != Overread
    && (Accepts(r) ==> r.header.len == r.header.caplen)
  }

  lemma CopyIs(r: Record)
    ensures CopyRead(r) == if r.header.len <= |r.bytes| then Some(r.bytes[..r.header.len]) else None
  {
    ReadSpanInside(r.bytes, 0, r.header.len);
  }

  /** A record is handled without reading past its end exactly when it is safe, or shorter on the wire than captured. */
  lemma ReadableIff(r: Record)
    requires Captured(r)
    ensures Readable(r) <==> Safe(r) || (Accepts(r) && r.header.len < r.header.caplen)
  {
    hide Decode;
    CopyIs(r);
  }

  ghost predicate AllSafe(frames: seq<Record>) {
    forall i | 0 <= i < |frames| :: Safe(frames[i])
  }

  lemma SafeAreReadable(frames: seq<Record>)
    ensures AllSafe(frames) ==> AllReadable(frames)
  {
    hide Decode;
    forall i | 0 <= i < |frames|
      ensures Safe(frames[i]) ==> Readable(frames[i])
    {
      CopyIs(frames[i]);
    }
  }

  /** The stored copy: the record's header and its first len bytes. A safe record has them all. */
  function DumpOf(num: nat, r: Record): Dump {
    Dump(num, r.header, if r.header.len <= |r.bytes| then r.bytes[..r.header.len] else r.bytes)
  }

  function RowOf(num: int, p: Packet): Row {
    Row(num, Dotted(p.src), Dotted(p.dst), p.proto, p.len, p.info)
  }

  /** A stored packet that is complete and decodes. */
  predicate Complete(d: Dump) {
    && Decode(d.data).Accepted?
    && d.header.caplen == d.header.len == |d.data|
  }

  ghost predicate AllComplete(ds: seq<Dump>) {
    forall i | 0 <= i < |ds| :: Complete(ds[i])
  }

  /** Stored packets carry the numbers base, base + 1, ... */
  ghost predicate NumberedFrom(ds: seq<Dump>, base: nat) {
    forall i | 0 <= i < |ds| :: ds[i].pktNum == base + i
  }

  /** The row a stored packet decodes to; bytes that do not decode, which are never stored, give a blank one. */
  function RowOfDump(d: Dump): (r: Row)
    ensures r.num == d.pktNum
  {
    match Decode(d.data)
    case Accepted(p) => RowOf(d.pktNum, p)
    case _ => Row(d.pktNum, "", "", "", 0, "")
  }

  function RowsOf(ds: seq<Dump>): (v: seq<Row>)
    ensures |v| == |ds|
    ensures forall i | 0 <= i < |ds| :: v[i] == RowOfDump(ds[i])
  {
    seq(|ds|, i requires 0 <= i < |ds| => RowOfDump(ds[i]))
  }

  lemma DumpOfIsComplete(num: nat, r: Record)
    requires Safe(r) && Accepts(r)
    ensures Complete(DumpOf(num, r)) && DumpOf(num, r).data == r.bytes
    ensures RowOfDump(DumpOf(num, r)) == RowOf(num, Decode(r.bytes).packet)
  {
    assert r.bytes[..|r.bytes|] == r.bytes;
  }

  /** What one frame adds to the log. */
  function Logged(num: nat, r: Record): seq<Dump> {
    if Accepts(r) then [DumpOf(num, r)] else []
  }

  /** The accepted frames in order, numbered from base without gaps: rejected frames consume no number. */
  function Log(base: nat, frames: seq<Record>): seq<Dump> {
    if frames == [] then [] else
      var front := Log(base, frames[..|frames| - 1]);
      front + Logged(base + |front|, frames[|frames| - 1])
  }

  lemma {:induction false} LogIsNumbered(base: nat, frames: seq<Record>)
    ensures NumberedFrom(Log(base, frames), base)
  {
    if frames == [] {
    } else {
      LogIsNumbered(base, frames[..|frames| - 1]);
    }
  }

  lemma {:induction false} LogIsComplete(base: nat, frames: seq<Record>)
    requires AllSafe(frames)
    ensures AllComplete(Log(base, frames))
  {
    if frames == [] {
    } else {
      var n := |frames| - 1;
      LogIsComplete(base, frames[..n]);
      if Accepts(frames[n]) {
        DumpOfIsComplete(base + |Log(base, frames[..n])|, frames[n]);
      }
    }
  }

  /** The accepted frames, in order. */
  function AcceptedOnes(frames: seq<Record>): seq<Record> {
    if frames == [] then []
    else if Accepts(frames[0]) then [frames[0]] + AcceptedOnes(frames[1..])
    else AcceptedOnes(frames[1..])
  }

  lemma {:induction false} AcceptedSnoc(frames: seq<Record>, r: Record)
    ensures AcceptedOnes(frames + [r]) == AcceptedOnes(frames) + if Accepts(r) then [r] else []
  {
    hide Accepts;
    if frames == [] {
      assert [] + [r] == [r] && [r][1..] == [];
    } else {
      assert (frames + [r])[0] == frames[0] && (frames + [r])[1..] == frames[1..] + [r];
      AcceptedSnoc(frames[1..], r);
    }
  }

  /** The log is the accepted frames in order, each with its own header and all its bytes. */
  lemma {:induction false} LogFollowsFrames(base: nat, frames: seq<Record>)
    requires AllSafe(frames)
    ensures var ds, rs := Log(base, frames), AcceptedOnes(frames);
      |ds| == |rs| && forall i | 0 <= i < |ds| :: ds[i] == Dump(base + i, rs[i].header, rs[i].bytes)
  {
    hide Decode;
    if frames == [] {
    } else {
      var n := |frames| - 1;
      LogFollowsFrames(base, frames[..n]);
      assert frames == frames[..n] + [frames[n]];
      AcceptedSnoc(frames[..n], frames[n]);
      if Accepts(frames[n]) {
        DumpOfIsComplete(base + |Log(base, frames[..n])|, frames[n]);
      }
    }
  }

  lemma LogSnoc(base: nat, frames: seq<Record>, r: Record)
    ensures Log(base, frames + [r]) == Log(base, frames) + Logged(base + |Log(base, frames)|, r)
  {
    hide Logged;
    var all := frames + [r];
    assert all[..|all| - 1] == frames && all[|all| - 1] == r;
  }

  lemma RowsOfSnoc(ds: seq<Dump>, d: Dump)
    ensures RowsOf(ds + [d]) == RowsOf(ds) + [RowOfDump(d)]
  {
  }

  lemma RowsAddressed(ds: seq<Dump>, i: nat)
    requires AllComplete(ds) && i < |ds|
    ensures HasAddresses(RowsOf(ds)[i])
  {
    var p := Decode(ds[i].data).packet;
    assert Printed(RowsOf(ds)[i], p.src, p.dst);
  }
}
