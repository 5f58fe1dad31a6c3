/**
 The capture session: the slots of the main object, the worker that posts to its
 event queue, and what each of them does to the session's state as a value.
 */
module Session {
  import opened Wrappers
  import opened Bytes
  import opened Decoder
  import opened HexDump
  import opened Rows
  import opened Capture
  import opened Records

  /** Calls queued for the main thread. The last one blocks its sender until it is delivered. */
  datatype Event =
    | SetWkPp(open: bool)
    | SetWkLife(on: bool)
    | SetWkFlag(on: bool)
    | UpdateMd(pkt: Row)
    | DumpPushBack(dump: Dump)
    | ClearWkPp

  /** The main object's fields as a value; wkPp says whether the stored handle is non-null. */
  datatype Main = Main(
    wkLife: bool, wkPp: bool, stopFlag: bool, wkFlag: bool, num: nat, list: List, dumps: seq<Dump>)

  const INITIAL := Main(false, false, false, false, 0, EMPTY_LIST, [])

  function Cleared(m: Main): Main {
    m.(list := m.list.(vec := []), dumps := [])
  }

  /** The effect of delivering one queued call. */
  function Handle(m: Main, e: Event): Main {
    match e
    case SetWkPp(open) => m.(wkPp := open)
    case SetWkLife(on) => m.(wkLife := on)
    case SetWkFlag(on) => m.(wkFlag := on)
    case UpdateMd(pkt) => m.(list := m.list.(vec := m.list.vec + [pkt]))
    case DumpPushBack(dump) => m.(dumps := m.dumps + [dump])
    case ClearWkPp => m.(wkPp := false)
  }

  function Created(m: Main): Main {
    Cleared(m.(stopFlag := false, wkFlag := true))
  }

  function Stopped(m: Main): Main {
    if m.wkPp then m.(stopFlag := true, wkFlag := false) else m
  }

  function WhenReset(m: Main): Main {
    if m.wkLife then m else Cleared(m)
  }

  /** Both stores grow by the same packets. */
  function Grown(m: Main, ds: seq<Dump>): Main {
    m.(num := m.num + |ds|, list := m.list.(vec := m.list.vec + RowsOf(ds)), dumps := m.dumps + ds)
  }

  lemma GrownNum(m: Main, ds: seq<Dump>)
    ensures Grown(m, ds).num == m.num + |ds|
  {
  }

  lemma GrownTwice(m: Main, ds: seq<Dump>, es: seq<Dump>)
    ensures Grown(m, ds + es) == Grown(Grown(m, ds), es)
  {
    assert RowsOf(ds + es) == RowsOf(ds) + RowsOf(es);
    assert m.list.vec + RowsOf(ds + es) == (m.list.vec + RowsOf(ds)) + RowsOf(es);
    assert m.dumps + (ds + es) == (m.dumps + ds) + es;
  }

  /** Handling one record, whatever its two lengths: the row is made from the captured bytes, the copy has len bytes. */
  function Recorded(m: Main, r: Record): Main {
    match Decode(r.bytes)
    case Accepted(p) =>
      m.(num := m.num + 1,
         list := m.list.(vec := m.list.vec + [RowOf(m.num, p)]),
         dumps := m.dumps + [DumpOf(m.num, r)])
    case _ => m
  }

  function AllRecorded(m: Main, frames: seq<Record>): Main {
    if frames == [] then m else Recorded(AllRecorded(m, frames[..|frames| - 1]), frames[|frames| - 1])
  }

  /** Taking one safe record: an accepted one goes to both stores under the next number. */
  function Taken(m: Main, r: Record): Main {
    Grown(m, Logged(m.num, r))
  }

  /** Taking all records: both stores grow by the log of the frames. */
  function AllTaken(m: Main, frames: seq<Record>): Main {
    Grown(m, Log(m.num, frames))
  }

  lemma AllTakenSnoc(m: Main, frames: seq<Record>, r: Record)
    ensures AllTaken(m, frames + [r]) == Taken(AllTaken(m, frames), r)
  {
    hide Decode, Log, Grown, Logged;
    var ds := Log(m.num, frames);
    LogSnoc(m.num, frames, r);
    assert Grown(m, ds).num == m.num + |ds| by {
      GrownNum(m, ds);
    }
    GrownTwice(m, ds, Logged(m.num + |ds|, r));
  }

  lemma NothingTaken(m: Main)
    ensures AllTaken(m, []) == m
  {
    assert m.list.vec + RowsOf([]) == m.list.vec && m.dumps + [] == m.dumps;
  }

  lemma SafeIsTaken(m: Main, r: Record)
    requires Safe(r)
    ensures Recorded(m, r) == Taken(m, r)
  {
    hide Decode;
    if Accepts(r) {
      DumpOfIsComplete(m.num, r);
      assert RowsOf([DumpOf(m.num, r)]) == [RowOf(m.num, Decode(r.bytes).packet)];
    } else {
      assert m.list.vec + RowsOf([]) == m.list.vec && m.dumps + [] == m.dumps;
    }
  }

  /** On safe records, the stores grow by the log of the frames and the rows it decodes to. */
  lemma {:induction false} SafeAreTaken(m: Main, frames: seq<Record>)
    requires AllSafe(frames)
    ensures AllRecorded(m, frames) == AllTaken(m, frames)
  {
    hide Decode, Log, RowsOf, Recorded, Taken, AllTaken;
    if frames == [] {
      NothingTaken(m);
    } else {
      var n := |frames| - 1;
      SafeAreTaken(m, frames[..n]);
      assert frames == frames[..n] + [frames[n]];
      AllTakenSnoc(m, frames[..n], frames[n]);
      SafeIsTaken(AllTaken(m, frames[..n]), frames[n]);
    }
  }

  /** Reading a file: take all records, then zero the counter. */
  function FileRead(m: Main, frames: seq<Record>): Main {
    AllTaken(m, frames).(num := 0)
  }

  /** A file of safe records is handled without a read past the end of any, and adds the log of its frames. */
  lemma SafeFileRead(m: Main, frames: seq<Record>)
    requires AllSafe(frames)
    ensures AllReadable(frames)
    ensures AllRecorded(m, frames).(num := 0) == FileRead(m, frames)
  {
    hide Readable, Safe;
    SafeAreReadable(frames);
    SafeAreTaken(m, frames);
  }

  /** Writing one stored packet: its header, and caplen bytes of its data; None when these reach past what is stored. */
  function RecordRead(d: Dump): Option<Record> {
    var bytes :- ReadSpan(d.data, 0, d.header.caplen);
    Some(Record(d.header, bytes))
  }

  /** What is written of a packet that holds caplen bytes. */
  function RecordOf(d: Dump): Record
    requires d.header.caplen <= |d.data|
  {
    Record(d.header, d.data[..d.header.caplen])
  }

  lemma RecordReadInside(d: Dump)
    ensures RecordRead(d) == if d.header.caplen <= |d.data| then Some(RecordOf(d)) else None
  {
    ReadSpanInside(d.data, 0, d.header.caplen);
  }

  ghost predicate Stored(ds: seq<Dump>) {
    forall i | 0 <= i < |ds| :: ds[i].header.caplen <= |ds[i].data|
  }

  function RecordsOf(ds: seq<Dump>): (rs: seq<Record>)
    requires forall i | 0 <= i < |ds| :: ds[i].header.caplen <= |ds[i].data|
    ensures |rs| == |ds|
    ensures forall i | 0 <= i < |ds| :: rs[i] == RecordOf(ds[i])
  {
    seq(|ds|, i requires 0 <= i < |ds| => RecordOf(ds[i]))
  }

  /** What a save writes: nothing when nothing is stored or capture was not stopped. */
  function Written(m: Main): Option<seq<Record>>
    requires forall i | 0 <= i < |m.dumps| :: m.dumps[i].header.caplen <= |m.dumps[i].data|
  {
    if m.dumps == [] || !m.stopFlag then None else Some(RecordsOf(m.dumps))
  }

  /** The last stored packet with the number asked for. */
  function Find(ds: seq<Dump>, idx: int): Option<Dump> {
    if ds == [] then None
    else if ds[|ds| - 1].pktNum == idx then Some(ds[|ds| - 1])
    else Find(ds[..|ds| - 1], idx)
  }

  lemma {:induction false} FindInside(ds: seq<Dump>, idx: int)
    ensures Find(ds, idx).Some? ==> Find(ds, idx).value in ds && Find(ds, idx).value.pktNum == idx
    ensures Find(ds, idx).None? ==> forall d | d in ds :: d.pktNum != idx
  {
    if ds == [] {
    } else {
      var n := |ds| - 1;
      FindInside(ds[..n], idx);
      forall d | d in ds
        ensures d == ds[n] || d in ds[..n]
      {
        var i :| 0 <= i < |ds| && ds[i] == d;
        assert i < n ==> ds[..n][i] == d;
      }
    }
  }

  /** Of several packets with one number the last one stored is found. */
  lemma {:induction false} FindIsLast(ds: seq<Dump>, idx: int, k: nat)
    requires k < |ds| && ds[k].pktNum == idx
    requires forall i | k < i < |ds| :: ds[i].pktNum != idx
    ensures Find(ds, idx) == Some(ds[k])
  {
    if k == |ds| - 1 {
    } else {
      FindIsLast(ds[..|ds| - 1], idx, k);
    }
  }

  /** The hex view of packet idx; a number that is not stored leaves the data empty. */
  function HexView(ds: seq<Dump>, idx: int): Option<string> {
    match Find(ds, idx)
    case None => Some("-")
    case Some(d) => HexText(d.data, d.header.caplen)
  }

  // ---------- the main object ----------

  class Pcap {
    var wkLife: bool
    var wkPp: bool
    var stopFlag: bool
    var wkFlag: bool
    var num: nat
    const md: Capture
    var vecDump: seq<Dump>

    ghost function View(): Main
      reads this, md
    {
      Main(wkLife, wkPp, stopFlag, wkFlag, num, md.View(), vecDump)
    }

    constructor ()
      ensures View() == INITIAL && fresh(md)
      ensures !wkLife && !wkPp && !stopFlag && !wkFlag && num == 0 && vecDump == []
    {
      md := new Capture();
      wkLife, wkPp, stopFlag, wkFlag, num, vecDump := false, false, false, false, 0, [];
    }

    method SetWkPp(value: bool)
      modifies this`wkPp
      ensures wkPp == value
      ensures View() == Handle(old(View()), Event.SetWkPp(value))
    {
      wkPp := value;
    }

    method SetWkLife(value: bool)
      modifies this`wkLife
      ensures wkLife == value
      ensures View() == Handle(old(View()), Event.SetWkLife(value))
    {
      wkLife := value;
    }

    method SetWkFlag(value: bool)
      modifies this`wkFlag
      ensures wkFlag == value
      ensures View() == Handle(old(View()), Event.SetWkFlag(value))
    {
      wkFlag := value;
    }

    method UpdateMd(pkt: Row)
      modifies md`vec
      ensures md.vec == old(md.vec) + [pkt]
      ensures View() == Handle(old(View()), Event.UpdateMd(pkt))
    {
      md.UpdateMd(pkt);
    }

    method DumpPushBack(dump: Dump)
      modifies this`vecDump
      ensures vecDump == old(vecDump) + [dump]
      ensures View() == Handle(old(View()), Event.DumpPushBack(dump))
    {
      vecDump := vecDump + [dump];
    }

    /** The event loop calls the slot a queued event names. */
    method Dispatch(e: Event)
      modifies this, md
      ensures View() == Handle(old(View()), e)
    {
      match e
      case SetWkPp(open) => SetWkPp(open);
      case SetWkLife(on) => SetWkLife(on);
      case SetWkFlag(on) => SetWkFlag(on);
      case UpdateMd(pkt) => UpdateMd(pkt);
      case DumpPushBack(dump) => DumpPushBack(dump);
      case ClearWkPp => SetWkPp(false);
    }

    method CreateTh(nicName: string)
      modifies this`stopFlag, this`wkFlag, this`vecDump, md`vec
      ensures nicName != "" ==> !stopFlag && wkFlag && md.vec == [] && vecDump == []
      ensures View() == if nicName == "" then old(View()) else Created(old(View()))
    {
      if nicName == "" {
        return;
      }
      stopFlag := false;
      wkFlag := true;
      md.Reset();
      vecDump := [];
    }

    method StopTh()
      modifies this`stopFlag, this`wkFlag
      ensures wkPp ==> stopFlag && !wkFlag
      ensures !wkPp ==> stopFlag == old(stopFlag) && wkFlag == old(wkFlag)
      ensures View() == Stopped(old(View()))
    {
      if wkPp == false {
        return;
      } else {
        stopFlag := true;
        wkFlag := false;
      }
    }

    method ResetMd()
      modifies this`vecDump, md`vec
      ensures !wkLife ==> md.vec == [] && vecDump == []
      ensures wkLife ==> md.vec == old(md.vec) && vecDump == old(vecDump)
      ensures View() == WhenReset(old(View()))
    {
      if wkLife == false {
        md.Reset();
        vecDump := [];
      }
    }

    /** One record of a file; the result says that nothing was read past the captured bytes. */
    method PacketFunc(r: Record) returns (inside: bool)
      requires Captured(r)
      modifies this, md
      ensures inside == Readable(r)
      ensures inside ==> View() == Recorded(old(View()), r)
    {
      var o := DecodeFrame(r.bytes);
      if o.Overread? {
        return false;
      }
      if o.Rejected? {
        return true;
      }
      var pkt := RowOf(num, o.packet);
      CopyIs(r);
      var data := CopyRead(r);
      if data.None? {
        return false;
      }
      var dump := Dump(num, r.header, data.value);
      num := num + 1;
      UpdateMd(pkt);
      vecDump := vecDump + [dump];
      return true;
    }

    /** None stands for a file that cannot be opened. */
    method PcapFileRead(file: Option<seq<Record>>) returns (inside: bool)
      requires file.Some? ==> AllCaptured(file.value)
      modifies this, md
      ensures inside <==> (file.Some? ==> AllReadable(file.value))
      ensures file.None? ==> View() == old(View())
      ensures file.Some? && inside ==> View() == AllRecorded(old(View()), file.value).(num := 0)
    {
      if file.None? {
        return true;
      }
      hide Decode, Log, RowsOf, Taken, Recorded, Readable;
      var frames := file.value;
      ghost var m := View();
      var i := 0;
      while i < |frames|
        invariant 0 <= i <= |frames|
        invariant AllReadable(frames[..i])
        invariant View() == AllRecorded(m, frames[..i])
      {
        assert frames[..i + 1][..i] == frames[..i];
        inside := PacketFunc(frames[i]);
        if !inside {
          return;
        }
        i := i + 1;
      }
      assert frames[..i] == frames;
      num := 0;
      return true;
    }

    /** The records written, if the save goes ahead; the first result says that no read went past what is stored. */
    method SaveMd() returns (inside: bool, written: Option<seq<Record>>)
      ensures vecDump == [] || !stopFlag ==> inside && written == None
      ensures vecDump != [] && stopFlag ==> (inside <==> Stored(vecDump))
      ensures vecDump != [] && stopFlag && inside ==> written == Some(RecordsOf(vecDump))
      ensures Stored(vecDump) ==> written == Written(View())
    {
      hide RecordRead;
      if vecDump == [] || stopFlag == false {
        return true, None;
      }
      var out := [];
      for i := 0 to |vecDump|
        invariant Stored(vecDump[..i])
        invariant out == RecordsOf(vecDump[..i])
      {
        assert vecDump[..i + 1] == vecDump[..i] + [vecDump[i]];
        RecordReadInside(vecDump[i]);
        var r := RecordRead(vecDump[i]);
        if r.None? {
          return false, None;
        }
        out := out + [r.value];
      }
      assert vecDump[..|vecDump|] == vecDump;
      return true, Some(out);
    }

    /** The search shared by the hex view and the detail tree: a later match replaces an earlier one. */
    method Lookup(idx: int) returns (d: Option<Dump>)
      ensures d == Find(vecDump, idx)
    {
      d := None;
      for i := 0 to |vecDump|
        invariant d == Find(vecDump[..i], idx)
      {
        assert vecDump[..i + 1][..i] == vecDump[..i];
        if vecDump[i].pktNum == idx {
          d := Some(vecDump[i]);
        }
      }
      assert vecDump[..|vecDump|] == vecDump;
    }

    method StartHax(idx: int) returns (out: Option<string>)
      ensures out == HexView(vecDump, idx)
      ensures (forall d | d in vecDump :: d.pktNum != idx) ==> out == Some("-")
      ensures forall d | d in vecDump :: d.pktNum == idx && d.data == [] && Find(vecDump, idx) == Some(d) ==>
        out == Some("-")
    {
      var d := Lookup(idx);
      FindInside(vecDump, idx);
      if d.None? {
        return Some("-");
      }
      out := FormatDump(d.value.data, d.value.header.caplen);
    }
  }

  // ---------- the worker ----------

  /** Qt's queue of calls for the main thread. */
  class EventQueue {
    var events: seq<Event>

    constructor ()
      ensures events == []
    {
      events := [];
    }

    method Post(e: Event)
      modifies this
      ensures events == old(events) + [e]
    {
      events := events + [e];
    }
  }

  /** Where a worker is in its run. */
  datatype Phase =
    | Absent | Starting | Failing | Failed
    | Opened | Looping | Handling | Blocked | Released | Finished

  /** The calls posted for a log of accepted packets: a row and then its bytes, per packet. */
  function EventsOf(ds: seq<Dump>): (es: seq<Event>)
    ensures |es| == 2 * |ds|
  {
    if ds == [] then [] else
      var n := |ds| - 1;
      EventsOf(ds[..n]) + [Event.UpdateMd(RowOfDump(ds[n])), Event.DumpPushBack(ds[n])]
  }

  lemma NothingLogged()
    ensures forall base :: Log(base, []) == []
    ensures EventsOf([]) == []
  {
  }

  lemma EventsOfSnoc(ds: seq<Dump>, d: Dump)
    ensures EventsOf(ds + [d]) == EventsOf(ds) + [Event.UpdateMd(RowOfDump(d)), Event.DumpPushBack(d)]
  {
    assert (ds + [d])[..|ds|] == ds;
  }

  lemma {:induction false} EventsOfConcat(ds: seq<Dump>, es: seq<Dump>)
    ensures EventsOf(ds + es) == EventsOf(ds) + EventsOf(es)
  {
    hide Decode, RowOfDump;
    if es == [] {
      assert ds + es == ds;
    } else {
      var n := |es| - 1;
      EventsOfConcat(ds, es[..n]);
      assert (ds + es)[..|ds + es| - 1] == ds + es[..n];
    }
  }

  /** Everything a worker has posted by the time it is in a phase, after a log of accepted packets. */
  function Posted(phase: Phase, ds: seq<Dump>): seq<Event>
    requires phase == Handling ==> ds != []
  {
    var started := [Event.SetWkPp(true), Event.SetWkLife(true)];
    match phase
    case Absent => []
    case Starting => []
    case Failing => [Event.SetWkLife(false)]
    case Failed => [Event.SetWkLife(false), Event.SetWkFlag(false)]
    case Opened => started[..1]
    case Looping => started + EventsOf(ds)
    case Handling => started + EventsOf(ds)[..2 * |ds| - 1]
    case Blocked => started + EventsOf(ds) + [ClearWkPp]
    case Released => started + EventsOf(ds) + [ClearWkPp]
    case Finished => started + EventsOf(ds) + [ClearWkPp, Event.SetWkLife(false)]
  }

  // ---------- what the worker posts, frame by frame ----------

  /** The calls the handler posts for one frame: the row of the captured bytes, and the copy of len bytes. */
  function Calls(num: nat, r: Record): seq<Event> {
    match Decode(r.bytes)
    case Accepted(p) => [Event.UpdateMd(RowOf(num, p)), Event.DumpPushBack(DumpOf(num, r))]
    case _ => []
  }

  function AllCalls(num: nat, frames: seq<Record>): seq<Event> {
    if frames == [] then [] else
      var front := frames[..|frames| - 1];
      AllCalls(num, front) + Calls(num + |Log(num, front)|, frames[|frames| - 1])
  }

  lemma SafeCalls(num: nat, r: Record)
    requires Safe(r)
    ensures Calls(num, r) == EventsOf(Logged(num, r))
  {
    hide Decode;
    if Accepts(r) {
      DumpOfIsComplete(num, r);
      EventsOfSnoc([], DumpOf(num, r));
      assert [] + [DumpOf(num, r)] == [DumpOf(num, r)];
    }
  }

  /** On safe frames, the calls are those of the log of accepted packets. */
  lemma {:induction false} SafeAllCalls(num: nat, frames: seq<Record>)
    requires AllSafe(frames)
    ensures AllCalls(num, frames) == EventsOf(Log(num, frames))
  {
    hide Decode, Calls, Logged, EventsOf;
    if frames == [] {
      NothingLogged();
    } else {
      var n := |frames| - 1;
      SafeAllCalls(num, frames[..n]);
      SafeCalls(num + |Log(num, frames[..n])|, frames[n]);
      EventsOfConcat(Log(num, frames[..n]), Logged(num + |Log(num, frames[..n])|, frames[n]));
    }
  }

  lemma PostedBlocked(q: seq<Event>, ds: seq<Dump>)
    ensures q + [Event.SetWkPp(true)] + [Event.SetWkLife(true)] + EventsOf(ds) + [ClearWkPp] == q + Posted(Blocked, ds)
  {
    var a, b := Event.SetWkPp(true), Event.SetWkLife(true);
    assert q + [a] + [b] == q + [a, b];
  }

  class Worker {
    var num: nat
    const queue: EventQueue

    constructor (queue: EventQueue)
      ensures num == 0 && this.queue == queue
    {
      num := 0;
      this.queue := queue;
    }

    /** The packet handler: a row and its bytes are posted by two separate calls. */
    method MyPacketHandler(r: Record) returns (inside: bool)
      requires Captured(r)
      modifies this`num, queue
      ensures inside == Readable(r)
      ensures inside ==> num == old(num) + |Logged(old(num), r)|
      ensures inside ==> queue.events == old(queue.events) + Calls(old(num), r)
    {
      var o := DecodeFrame(r.bytes);
      if o.Overread? {
        return false;
      }
      if o.Rejected? {
        return true;
      }
      var pkt := RowOf(num, o.packet);
      num := num + 1;
      queue.Post(Event.UpdateMd(pkt));
      CopyIs(r);
      var data := CopyRead(r);
      if data.None? {
        return false;
      }
      var dump := Dump(pkt.num, r.header, data.value);
      queue.Post(Event.DumpPushBack(dump));
      return true;
    }

    /** pcap_loop: the handler runs on one frame after the other. */
    method PcapLoop(frames: seq<Record>) returns (inside: bool)
      requires AllCaptured(frames)
      modifies this`num, queue
      ensures inside <==> AllReadable(frames)
      ensures inside ==> num == old(num) + |Log(old(num), frames)|
      ensures inside ==> queue.events == old(queue.events) + AllCalls(old(num), frames)
    {
      hide Decode, Log, Logged, Calls, Readable;
      ghost var base := num;
      var i := 0;
      NothingLogged();
      assert frames[..0] == [] && Log(base, []) == [] && queue.events + [] == queue.events;
      while i < |frames|
        invariant 0 <= i <= |frames|
        invariant AllReadable(frames[..i])
        invariant num == base + |Log(base, frames[..i])|
        invariant queue.events == old(queue.events) + AllCalls(base, frames[..i])
      {
        LogSnoc(base, frames[..i], frames[i]);
        assert frames[..i + 1] == frames[..i] + [frames[i]];
        assert frames[..i + 1][..i] == frames[..i];
        inside := MyPacketHandler(frames[i]);
        if !inside {
          return;
        }
        i := i + 1;
      }
      assert frames[..i] == frames;
      return true;
    }

    /** set_Capture when the device does not open. */
    method ReportFailure()
      modifies queue
      ensures queue.events == old(queue.events) + Posted(Failed, [])
      ensures queue.events == old(queue.events) + [Event.SetWkLife(false), Event.SetWkFlag(false)]
    {
      queue.Post(Event.SetWkLife(false));
      queue.Post(Event.SetWkFlag(false));
    }

    /** set_Capture up to its blocking call; the loop hands over frames until it is broken or fails. */
    method CaptureUntilBlocked(frames: seq<Record>) returns (inside: bool)
      requires AllCaptured(frames)
      modifies this`num, queue
      ensures inside <==> AllReadable(frames)
      ensures inside ==>
        queue.events == old(queue.events) + [Event.SetWkPp(true)] + [Event.SetWkLife(true)]
                        + AllCalls(old(num), frames) + [ClearWkPp]
      ensures AllSafe(frames) && old(num) == 0 ==>
        inside && queue.events == old(queue.events) + Posted(Blocked, Log(0, frames))
    {
      hide Decode, Log, AllCalls, Readable, Posted, EventsOf;
      ghost var base := num;
      SafeAreReadable(frames);
      queue.Post(Event.SetWkPp(true));
      queue.Post(Event.SetWkLife(true));
      inside := PcapLoop(frames);
      if !inside {
        return;
      }
      queue.Post(ClearWkPp);
      if AllSafe(frames) && base == 0 {
        SafeAllCalls(0, frames);
        PostedBlocked(old(queue.events), Log(0, frames));
      }
    }

    /** set_Capture after the blocking call has returned. */
    method FinishCapture()
      modifies queue
      ensures queue.events == old(queue.events) + [Event.SetWkLife(false)]
    {
      queue.Post(Event.SetWkLife(false));
    }
  }
}
