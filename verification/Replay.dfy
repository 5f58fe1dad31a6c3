/** The two ways into the list, live capture and file, lead to the same place; and what is saved comes back. */
module Replay {
  import opened Wrappers
  import opened Decoder
  import opened HeaderReads
  import opened HexDump
  import opened Rows
  import opened Capture
  import opened Records
  import opened Session
  import opened Protocol
  import opened Invariant
  import opened Guarantees

  /** Nothing shown, nothing stored, numbering at its start. */
  predicate Empty(m: Main) {
    m.num == 0 && m.list.vec == [] && m.dumps == []
  }

  lemma FileIntoEmpty(m: Main, frames: seq<Record>)
    requires Empty(m)
    ensures FileRead(m, frames).dumps == Log(0, frames)
    ensures FileRead(m, frames).list.vec == RowsOf(Log(0, frames))
    ensures FileRead(m, frames).num == 0
  {
    hide Decode, Log, RowsOf;
    var ds := Log(0, frames);
    assert [] + RowsOf(ds) == RowsOf(ds) && [] + ds == ds;
  }

  // ---------- save, then reload ----------

  /** The same packets, numbered anew from base. */
  function Renumbered(ds: seq<Dump>, base: nat): (rs: seq<Dump>)
    ensures |rs| == |ds|
  {
    seq(|ds|, i requires 0 <= i < |ds| => ds[i].(pktNum := base + i))
  }

  lemma RecordComesBack(d: Dump, num: nat)
    requires Complete(d)
    ensures Safe(RecordOf(d)) && Accepts(RecordOf(d))
    ensures DumpOf(num, RecordOf(d)) == d.(pktNum := num)
  {
    assert d.data[..|d.data|] == d.data;
  }

  lemma CompleteIsStored(ds: seq<Dump>)
    requires AllComplete(ds)
    ensures Stored(ds)
  {
  }

  /** The last packet is written last and numbered last. */
  lemma LastWritten(ds: seq<Dump>, base: nat)
    requires Stored(ds) && ds != []
    ensures var n := |ds| - 1;
      && RecordsOf(ds) == RecordsOf(ds[..n]) + [RecordOf(ds[n])]
      && Renumbered(ds, base) == Renumbered(ds[..n], base) + [ds[n].(pktNum := base + n)]
  {
    hide RecordOf;
  }

  /** Writing complete packets and reading the file accepts every record and rebuilds all but their numbers. */
  lemma {:induction false} ReloadRenumbers(ds: seq<Dump>, base: nat)
    requires AllComplete(ds) && Stored(ds)
    ensures AllSafe(RecordsOf(ds))
    ensures Log(base, RecordsOf(ds)) == Renumbered(ds, base)
  {
    hide Decode, Complete, Safe, RecordOf, DumpOf;
    if ds == [] {
    } else {
      var n := |ds| - 1;
      hide Log, RecordsOf, Renumbered, Accepts;
      ReloadRenumbers(ds[..n], base);
      RecordComesBack(ds[n], base + n);
      LastWritten(ds, base);
      LogSnoc(base, RecordsOf(ds[..n]), RecordOf(ds[n]));
    }
  }

  /**
   Saving in any reachable state and reading the file into an empty session gives back the very same stored
   packets, and their rows in arrival order, whatever sorts happened in between.
   */
  lemma SaveThenReload(s: State, empty: Main)
    requires Inv(s) && Empty(empty)
    ensures Stored(s.main.dumps) && AllSafe(RecordsOf(s.main.dumps))
    ensures var m := FileRead(empty, RecordsOf(s.main.dumps));
      && m.dumps == s.main.dumps
      && m.list.vec == RowsOf(s.main.dumps)
      && m.num == 0
      && (HalfDelivered(s).None? ==> multiset(m.list.vec) == multiset(s.main.list.vec))
  {
    hide Decode, Log, RowOfDump, HalfDelivered, Inv, FileRead;
    var ds := s.main.dumps;
    ShownRows(s);
    StoredPart(s);
    CompleteIsStored(ds);
    ReloadRenumbers(ds, 0);
    assert Renumbered(ds, 0) == ds;
    hide Renumbered, RowsOf, AllComplete, NumberedFrom;
    FileIntoEmpty(empty, RecordsOf(ds));
    if HalfDelivered(s).None? {
      assert Shown(s) == ds;
    }
  }

  // ---------- live capture and file reading ----------

  function HandleAll(m: Main, es: seq<Event>): Main {
    if es == [] then m else Handle(HandleAll(m, es[..|es| - 1]), es[|es| - 1])
  }

  lemma {:induction false} HandleAllConcat(m: Main, es: seq<Event>, fs: seq<Event>)
    ensures HandleAll(m, es + fs) == HandleAll(HandleAll(m, es), fs)
  {
    hide Handle;
    if fs == [] {
      assert es + fs == es;
    } else {
      HandleAllConcat(m, es, fs[..|fs| - 1]);
      assert (es + fs)[..|es + fs| - 1] == es + fs[..|fs| - 1];
    }
  }

  lemma HandleTwo(m: Main, e: Event, f: Event)
    ensures HandleAll(m, [e, f]) == Handle(Handle(m, e), f)
  {
    hide Handle;
    assert [e, f][..1] == [e] && [e][..0] == [];
    assert HandleAll(m, [e]) == Handle(HandleAll(m, []), e);
    assert HandleAll(m, [e, f]) == Handle(HandleAll(m, [e]), f);
  }

  lemma HandlePair(m: Main, d: Dump)
    ensures HandleAll(m, [UpdateMd(RowOfDump(d)), DumpPushBack(d)])
         == m.(list := m.list.(vec := m.list.vec + [RowOfDump(d)]), dumps := m.dumps + [d])
  {
    hide Decode, RowOfDump;
    HandleTwo(m, UpdateMd(RowOfDump(d)), DumpPushBack(d));
  }

  lemma GrownByOne(m: Main, ds: seq<Dump>, d: Dump)
    ensures var g, h := Grown(m, ds), Grown(m, ds + [d]);
      h.(num := m.num)
        == g.(num := m.num, list := g.list.(vec := g.list.vec + [RowOfDump(d)]), dumps := g.dumps + [d])
  {
    hide RowOfDump;
    RowsOfSnoc(ds, d);
    assert m.list.vec + (RowsOf(ds) + [RowOfDump(d)]) == m.list.vec + RowsOf(ds) + [RowOfDump(d)];
    assert m.dumps + (ds + [d]) == m.dumps + ds + [d];
  }

  /** Two queued calls per packet, delivered in order, do to the stores what the direct calls do. */
  lemma {:induction false} HandlePackets(m: Main, ds: seq<Dump>)
    ensures HandleAll(m, EventsOf(ds)) == Grown(m, ds).(num := m.num)
  {
    hide Decode, RowOfDump, RowsOf;
    if ds == [] {
      assert RowsOf([]) == [];
      assert m.list.vec + [] == m.list.vec && m.dumps + [] == m.dumps;
    } else {
      var n := |ds| - 1;
      var front, d := ds[..n], ds[n];
      hide HandleAll, EventsOf, Grown;
      assert ds == front + [d];
      EventsOfSnoc(front, d);
      HandlePackets(m, front);
      HandleAllConcat(m, EventsOf(front), [UpdateMd(RowOfDump(d)), DumpPushBack(d)]);
      HandlePair(HandleAll(m, EventsOf(front)), d);
      GrownByOne(m, front, d);
    }
  }

  /** A whole run of a worker, drained into an empty session, fills the stores as reading its frames does. */
  lemma LiveRunFillsLikeFile(m: Main, frames: seq<Record>)
    requires Empty(m)
    ensures var live, file := HandleAll(m, Posted(Finished, Log(0, frames))), FileRead(m, frames);
      && live.list.vec == file.list.vec == RowsOf(Log(0, frames))
      && live.dumps == file.dumps == Log(0, frames)
      && !live.wkLife && !live.wkPp
  {
    hide Decode, Log, EventsOf;
    var ds := Log(0, frames);
    var start, end := [SetWkPp(true), SetWkLife(true)], [ClearWkPp, SetWkLife(false)];
    HandleAllConcat(m, start + EventsOf(ds), end);
    HandleAllConcat(m, start, EventsOf(ds));
    HandleTwo(m, SetWkPp(true), SetWkLife(true));
    HandlePackets(HandleAll(m, start), ds);
    HandleTwo(HandleAll(m, start + EventsOf(ds)), ClearWkPp, SetWkLife(false));
    FileIntoEmpty(m, frames);
  }

  /** Rows of numbered packets, sorted by number, stand in arrival order. */
  lemma AscendingIsArrival(ds: seq<Dump>, v: seq<Row>)
    requires NumberedFrom(ds, 0) && multiset(v) == multiset(RowsOf(ds))
    requires AllComparable(ByNum(true), v) && SortedBy(ByNum(true), v)
    ensures v == RowsOf(ds)
  {
    hide RowOfDump;
    NumberedDistinct(ds);
    DistinctKept(RowsOf(ds), v);
    SortedNumsStrict(true, v);
    assert Increasing(RowsOf(ds));
    IncreasingUnique(v, RowsOf(ds));
  }

  /**
   In any interleaving: when the worker passes its blocking call, the stored packets are exactly those that
   reading the same frames from a file gives, and the rows are the same up to sorting; one press of the number
   header towards ascending order makes the two lists identical.
   */
  lemma LiveRefinesFile(s: State, m: Main, l: List)
    requires Inv(s) && s.worker.phase == Released
    requires Empty(m)
    requires s.main.list.numFlag && Pressed(s.main.list, NumHeader, l)
    ensures AllSafe(s.worker.frames)
    ensures var file := FileRead(m, s.worker.frames);
      && s.main.dumps == file.dumps
      && multiset(s.main.list.vec) == multiset(file.list.vec)
      && l.vec == file.list.vec
  {
    hide Decode, Log, RowsOf, QueueOk, FlagsOk, StoresOk, FileRead;
    ReleasedHoldsLog(s);
    FileIntoEmpty(m, s.worker.frames);
    LogIsNumbered(0, s.worker.frames);
    AscendingIsArrival(Log(0, s.worker.frames), l.vec);
  }

  // ---------- from a row to its bytes and back ----------

  lemma {:induction false} FindNumbered(ds: seq<Dump>, idx: int)
    requires NumberedFrom(ds, 0)
    ensures Find(ds, idx) == if 0 <= idx < |ds| then Some(ds[idx]) else None
  {
    if ds == [] {
    } else {
      FindNumbered(ds[..|ds| - 1], idx);
    }
  }

  /** The hex view of any stored packet with data shows its first caplen bytes, or reads past what is stored. */
  lemma HexViewReadable(ds: seq<Dump>, idx: int)
    requires Find(ds, idx).Some? && Find(ds, idx).value.data != []
    ensures var d, view := Find(ds, idx).value, HexView(ds, idx);
      && (view.Some? <==> d.header.caplen <= |d.data|)
      && (view.Some? ==>
            var lines := ReadDump(view.value);
            lines.Some? && Flatten(lines.value) == d.data[..d.header.caplen])
  {
    hide DumpFrom, ReadDump, Flatten, HexText;
    var d := Find(ds, idx).value;
    HexTextInside(d.data, d.header.caplen);
    if d.header.caplen <= |d.data| {
      DumpReadable(d.data[..d.header.caplen]);
    }
  }

  lemma ViewOfComplete(d: Dump)
    requires Complete(d)
    ensures d.data != [] && HexText(d.data, d.header.caplen).Some?
    ensures var lines := ReadDump(HexText(d.data, d.header.caplen).value);
      lines.Some? && Flatten(lines.value) == d.data
    ensures RowOfDump(d) == RowOf(d.pktNum, Decode(d.data).packet)
  {
    hide DumpFrom, ReadDump, Flatten, HexText;
    assert d.data[..d.header.caplen] == d.data;
    HexTextInside(d.data, d.header.caplen);
    DumpReadable(d.data);
  }

  /** The hex view of a row's number shows bytes that decode to that row; only the half delivered row shows nothing. */
  lemma HexViewShowsRow(s: State, r: Row)
    requires Inv(s) && r in s.main.list.vec
    ensures HexView(s.main.dumps, r.num).Some?
    ensures var text := HexView(s.main.dumps, r.num).value;
      if HalfDelivered(s).Some? && r.num == |s.main.dumps| then text == "-"
      else var lines := ReadDump(text);
        && lines.Some? && Decode(Flatten(lines.value)).Accepted?
        && RowOf(r.num, Decode(Flatten(lines.value)).packet) == r
  {
    hide Decode, Inv, HalfDelivered, HexText, ReadDump, Flatten;
    RowsMatchDumps(s);
    var ds := s.main.dumps;
    FindNumbered(ds, r.num);
    if r.num < |ds| {
      ViewOfComplete(ds[r.num]);
    }
  }

  // ---------- reading a file into a list that is not empty ----------

  /** Rows of two lots of packets, both numbered from 0, clash unless one lot is empty. */
  lemma TwoNumberings(v: seq<Row>, held: seq<Dump>, added: seq<Dump>)
    requires NumberedFrom(held, 0) && NumberedFrom(added, 0) && multiset(v) == multiset(RowsOf(held))
    ensures DistinctNums(v + RowsOf(added)) <==> held == [] || added == []
  {
    hide RowOfDump;
    var w := v + RowsOf(added);
    assert |v| == |multiset(v)| == |multiset(RowsOf(held))| == |held|;
    if held == [] {
      NumberedDistinct(added);
      assert w == RowsOf(added);
    } else if added == [] {
      NumberedDistinct(held);
      DistinctKept(RowsOf(held), v);
      assert w == v;
    } else {
      PacketHasRow(v, held, held[0]);
      var i :| 0 <= i < |v| && v[i] == RowOfDump(held[0]);
      assert w[i].num == 0 && w[|v|].num == 0;
    }
  }

  /**
   Reading a file restarts numbering at 0 but does not clear the stores: the numbers stay distinct exactly
   when nothing was stored or nothing is accepted.
   */
  lemma ReadKeepsNumbersDistinctIff(m: Main, frames: seq<Record>)
    requires m.num == 0 && NumberedFrom(m.dumps, 0) && multiset(m.list.vec) == multiset(RowsOf(m.dumps))
    ensures DistinctNums(FileRead(m, frames).list.vec) <==> m.dumps == [] || Log(0, frames) == []
  {
    hide Decode, Log, RowOfDump;
    LogIsNumbered(0, frames);
    TwoNumberings(m.list.vec, m.dumps, Log(0, frames));
  }

  /** A captured UDP frame of 42 bytes. */
  function UdpFrame(): Record {
    Record(Header(0, 42, 42), ShortFrame(42, 17, 0))
  }

  lemma UdpFrameIsAccepted()
    ensures Safe(UdpFrame()) && Accepts(UdpFrame())
  {
    hide Decode, ShortFrame;
    UdpDecoded(ShortFrame(42, 17, 0));
  }

  /** Reading the same one-packet file twice shows two rows with the number 0. */
  lemma ReadingTwiceClashes()
    ensures Safe(UdpFrame()) && Accepts(UdpFrame())
    ensures var once := FileRead(INITIAL, [UdpFrame()]);
      DistinctNums(once.list.vec) && !DistinctNums(FileRead(once, [UdpFrame()]).list.vec)
  {
    UdpFrameIsAccepted();
    hide Decode, UdpFrame;
    var frames := [UdpFrame()];
    assert frames[..0] == [];
    assert Log(0, frames) == Logged(0, UdpFrame()) != [];
    LogIsNumbered(0, frames);
    FileIntoEmpty(INITIAL, frames);
    NumberedDistinct(Log(0, frames));
    ReadKeepsNumbersDistinctIff(FileRead(INITIAL, frames), frames);
  }

  // ---------- a row whose bytes are not posted yet ----------

  /** Three deliveries take the first three calls off the queue. */
  lemma ThreeDeliveries(s: State, e: Event, f: Event, g: Event)
    requires s.queue == [e, f, g] && ClearWkPp !in s.queue
    ensures var t := Delivering(s); t.queue == [f, g] && t.main == Handle(s.main, e) && t.worker == s.worker
    ensures var t := Delivering(Delivering(s));
      t.queue == [g] && t.main == Handle(Handle(s.main, e), f) && t.worker == s.worker
    ensures var t := Delivering(Delivering(Delivering(s)));
      t.queue == [] && t.main == Handle(Handle(Handle(s.main, e), f), g) && t.worker == s.worker
  {
    hide Handle;
  }

  /** The queue of a worker that has posted the first row of its first run. */
  lemma FirstRowPosted(r: Record)
    requires Safe(r) && Accepts(r)
    ensures var s := Beginning(Announcing(Opening(Creating(START, "eth0"), true)), r);
      && s.queue == [SetWkPp(true), SetWkLife(true), UpdateMd(RowOfDump(DumpOf(0, r)))]
      && s.worker == WorkerState(Handling, 1, [r]) && s.main == Created(INITIAL)
  {
    hide Decode, RowOfDump, DumpOf, Accepts;
  }

  /** A run goes on by any enabled action. */
  lemma RunOn(ss: seq<State>, acts: seq<Action>, a: Action) returns (us: seq<State>, bs: seq<Action>)
    requires Run(ss, acts) && |ss| == |acts| + 1 && Enabled(ss[|acts|], a)
    ensures Run(us, bs) && |us| == |bs| + 1
    ensures us[|bs|] == Next(ss[|acts|], a)
  {
    hide Enabled, Next;
    us, bs := ss + [Next(ss[|acts|], a)], acts + [a];
    forall i | 0 <= i < |bs|
      ensures Enabled(us[i], bs[i]) && us[i + 1] == Next(us[i], bs[i])
    {
      if i < |acts| {
        assert us[i] == ss[i] && us[i + 1] == ss[i + 1] && bs[i] == acts[i];
      }
    }
  }

  /** The first steps of a session, each enabled where it is taken. */
  lemma FirstSteps(r: Record)
    requires Safe(r)
    ensures var s1 := Creating(START, "eth0");
      && Enabled(START, CreateThread("eth0")) && Next(START, CreateThread("eth0")) == s1
      && Enabled(s1, Open(true)) && Next(s1, Open(true)) == Opening(s1, true)
    ensures var s2 := Opening(Creating(START, "eth0"), true);
      && Enabled(s2, AnnounceLife) && Next(s2, AnnounceLife) == Announcing(s2)
      && Enabled(Announcing(s2), BeginPacket(r)) && Next(Announcing(s2), BeginPacket(r)) == Beginning(Announcing(s2), r)
  {
    hide Safe, Beginning;
  }

  lemma RunStarts()
    ensures Run([START], [])
  {
  }

  /** A run whose worker has posted the row of its first frame. */
  lemma RunToFirstRow(r: Record) returns (ss: seq<State>, acts: seq<Action>)
    requires Safe(r)
    ensures Run(ss, acts) && |ss| == |acts| + 1
    ensures ss[|acts|] == Beginning(Announcing(Opening(Creating(START, "eth0"), true)), r)
  {
    hide Run, Creating, Opening, Announcing, Beginning, Safe, Enabled, Next;
    FirstSteps(r);
    RunStarts();
    ss, acts := [START], [];
    ss, acts := RunOn(ss, acts, CreateThread("eth0"));
    ss, acts := RunOn(ss, acts, Open(true));
    ss, acts := RunOn(ss, acts, AnnounceLife);
    ss, acts := RunOn(ss, acts, BeginPacket(r));
  }

  lemma DeliverStep(s: State)
    requires s.queue != []
    ensures Enabled(s, Deliver) && Next(s, Deliver) == Delivering(s)
  {
  }

  lemma FirstRowShown(row: Row)
    ensures var m := Handle(Handle(Handle(Created(INITIAL), SetWkPp(true)), SetWkLife(true)), UpdateMd(row));
      m.list.vec == [row] && m.dumps == []
  {
  }

  /**
   The row whose bytes are missing need not be followed by them in the queue: a run leads to a state in which the queue
   is empty, one row is shown, nothing is stored, and the worker has yet to post the bytes.
   */
  lemma BytesMayBeUnposted() returns (ss: seq<State>, acts: seq<Action>)
    ensures Run(ss, acts) && |ss| == |acts| + 1
    ensures var s := ss[|acts|];
      && s.queue == [] && s.worker.phase == Handling && HalfDelivered(s).Some?
      && |s.main.list.vec| == 1 && s.main.dumps == []
  {
    UdpFrameIsAccepted();
    hide Decode, UdpFrame, RowOfDump, DumpOf, Inv, HalfDelivered, Safe, Accepts, Run, Enabled, Next;
    hide Creating, Opening, Announcing, Beginning, Delivering;
    var r := UdpFrame();
    ss, acts := RunToFirstRow(r);
    var s := ss[|acts|];
    FirstRowPosted(r);
    var row := RowOfDump(DumpOf(0, r));
    ThreeDeliveries(s, SetWkPp(true), SetWkLife(true), UpdateMd(row));
    FirstRowShown(row);
    hide Handle, Created;
    DeliverStep(s);
    DeliverStep(Delivering(s));
    DeliverStep(Delivering(Delivering(s)));
    ss, acts := RunOn(ss, acts, Deliver);
    ss, acts := RunOn(ss, acts, Deliver);
    ss, acts := RunOn(ss, acts, Deliver);
    RunKeepsInv(ss, acts, |acts|);
    RowsMatchDumps(ss[|acts|]);
  }
}
