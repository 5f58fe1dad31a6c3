/** What the invariant means to a user of the session, in every reachable state. */
module Guarantees {
  import opened Wrappers
  import opened Decoder
  import opened Rows
  import opened Capture
  import opened Records
  import opened Session
  import opened Protocol
  import opened Invariant

  // ---------- rows and stored packets ----------

  /** The packet whose row is shown but whose bytes are not stored yet, if there is one. */
  function HalfDelivered(s: State): Option<Dump> {
    if Quiet(s.worker.phase) || PacketsDelivered(s) % 2 == 0 then None
    else Some(Progress(s.worker)[PacketsDelivered(s) / 2])
  }

  /** The packets behind the rows shown: those stored, and the half delivered one. */
  function Shown(s: State): seq<Dump> {
    s.main.dumps + match HalfDelivered(s) case None => [] case Some(d) => [d]
  }

  lemma ShownIsDue(s: State)
    requires !Quiet(s.worker.phase) && s.main.dumps == DumpsDue(s)
    ensures Shown(s) == RowsDue(s)
  {
    hide Log, AllPosts;
    var ds, k := Progress(s.worker), PacketsDelivered(s) / 2;
    if HalfDelivered(s).Some? {
      assert ds[..k + 1] == ds[..k] + [ds[k]];
    } else {
      assert ds[..k] + [] == ds[..k];
    }
  }

  lemma DuePrefix(s: State)
    ensures RowsDue(s) <= Progress(s.worker)
    ensures forall i | 0 <= i < |RowsDue(s)| :: RowsDue(s)[i] == Progress(s.worker)[i]
  {
    hide Log, AllPosts;
  }

  lemma ShownRows(s: State)
    requires Inv(s)
    ensures AllComplete(Shown(s)) && NumberedFrom(Shown(s), 0)
    ensures multiset(s.main.list.vec) == multiset(RowsOf(Shown(s)))
  {
    hide Decode, Log, QueueOk, FlagsOk, PacketsDelivered, RowOfDump;
    if Quiet(s.worker.phase) {
      assert Shown(s) == s.main.dumps;
    } else {
      ShownIsDue(s);
      LogIsComplete(0, s.worker.frames);
      LogIsNumbered(0, s.worker.frames);
      DuePrefix(s);
    }
  }

  lemma NumberedDistinct(ds: seq<Dump>)
    requires NumberedFrom(ds, 0)
    ensures DistinctNums(RowsOf(ds))
  {
    hide RowOfDump;
  }

  lemma StoredPart(s: State)
    requires AllComplete(Shown(s)) && NumberedFrom(Shown(s), 0)
    ensures NumberedFrom(s.main.dumps, 0) && AllComplete(s.main.dumps)
    ensures s.main.dumps <= Shown(s)
  {
    hide Complete, HalfDelivered;
    assert forall i | 0 <= i < |s.main.dumps| :: Shown(s)[i] == s.main.dumps[i];
  }

  lemma RowHasPacket(v: seq<Row>, ds: seq<Dump>, r: Row)
    requires multiset(v) == multiset(RowsOf(ds)) && NumberedFrom(ds, 0) && r in v
    ensures 0 <= r.num < |ds| && r == RowOfDump(ds[r.num])
  {
    hide RowOfDump;
    assert r in multiset(RowsOf(ds));
    assert r in RowsOf(ds);
    var i :| 0 <= i < |ds| && RowsOf(ds)[i] == r;
    assert ds[i].pktNum == i;
  }

  lemma PacketHasRow(v: seq<Row>, ds: seq<Dump>, d: Dump)
    requires multiset(v) == multiset(RowsOf(ds)) && d in ds
    ensures RowOfDump(d) in v
  {
    hide RowOfDump;
    var i :| 0 <= i < |ds| && ds[i] == d;
    assert RowsOf(ds)[i] in multiset(RowsOf(ds));
    assert RowOfDump(d) in multiset(v);
  }

  /**
   Rows and stored packets agree: row numbers are distinct, a row whose number is stored is what that packet
   decodes to, every stored packet has its row, and at most one row, the half delivered one, has no bytes yet.
   */
  lemma RowsMatchDumps(s: State)
    requires Inv(s)
    ensures DistinctNums(s.main.list.vec)
    ensures NumberedFrom(s.main.dumps, 0) && AllComplete(s.main.dumps)
    ensures |s.main.list.vec| == |s.main.dumps| + if HalfDelivered(s).Some? then 1 else 0
    ensures forall r | r in s.main.list.vec ::
      if 0 <= r.num < |s.main.dumps| then r == RowOfDump(s.main.dumps[r.num])
      else HalfDelivered(s).Some? && r == RowOfDump(HalfDelivered(s).value) && r.num == |s.main.dumps|
    ensures forall d | d in s.main.dumps :: RowOfDump(d) in s.main.list.vec
  {
    hide Decode, RowOfDump, Inv, HalfDelivered;
    var v, ds := s.main.list.vec, Shown(s);
    ShownRows(s);
    NumberedDistinct(ds);
    DistinctKept(RowsOf(ds), v);
    assert |v| == |multiset(v)| == |multiset(RowsOf(ds))| == |ds|;
    StoredPart(s);
    forall r | r in v
      ensures 0 <= r.num < |ds| && r == RowOfDump(ds[r.num])
    {
      RowHasPacket(v, ds, r);
    }
    forall d | d in s.main.dumps
      ensures RowOfDump(d) in v
    {
      PacketHasRow(v, ds, d);
    }
  }

  /** The agreement of rows and stored packets, in terms of what is on screen and in memory. */
  ghost predicate Consistent(s: State) {
    var v, ds := s.main.list.vec, s.main.dumps;
    && DistinctNums(v) && NumberedFrom(ds, 0) && AllComplete(ds)
    && |ds| <= |v| <= |ds| + 1
    && (forall d | d in ds :: RowOfDump(d) in v)
    && (forall r | r in v ::
          || (0 <= r.num < |ds| && r == RowOfDump(ds[r.num]))
          || (HalfDelivered(s).Some? && r == RowOfDump(HalfDelivered(s).value) && r.num == |ds|))
  }

  /** In every state of every run, rows and stored packets agree. */
  lemma RunsStayConsistent(ss: seq<State>, acts: seq<Action>, i: nat)
    requires Run(ss, acts) && i < |ss|
    ensures Consistent(ss[i])
  {
    hide Inv, Run, HalfDelivered, RowOfDump, Complete;
    RunKeepsInv(ss, acts, i);
    RowsMatchDumps(ss[i]);
  }

  lemma LogOfNone(w: WorkerState)
    requires w.frames == []
    ensures Progress(w) == []
  {
  }

  /** A half delivered packet belongs to a worker in its loop, with no leftovers before its calls. */
  lemma NotBefore(s: State)
    requires Inv(s) && HalfDelivered(s).Some?
    ensures Announced(s.worker.phase) && |s.queue| <= |AllPosts(s.worker)|
    ensures 2 < Delivered(s.queue, AllPosts(s.worker))
  {
    hide Decode, Log, StoresOk, Rest;
    if s.worker.phase in {Starting, Failing, Opened} {
      LogOfNone(s.worker);
      assert false;
    }
  }

  /** With every packet call delivered, only the blocking call can be left. */
  lemma LastIsBlocking(s: State)
    requires Inv(s) && HalfDelivered(s).Some? && s.queue != []
    ensures Delivered(s.queue, AllPosts(s.worker)) < 2 + PacketPosts(s.worker)
  {
    hide Decode, Log, StoresOk, Rest;
    NotBefore(s);
    PostAt(s.worker, 0);
  }

  /**
   The bytes of the half delivered packet are the very next call to be delivered, or the worker is between
   its two posts for that packet and the queue is empty.
   */
  lemma HalfDeliveredIsNext(s: State)
    requires Inv(s) && HalfDelivered(s).Some?
    ensures if s.queue != [] then s.queue[0] == DumpPushBack(HalfDelivered(s).value)
            else s.worker.phase == Handling && HalfDelivered(s).value == Progress(s.worker)[|Progress(s.worker)| - 1]
    ensures s.main.wkLife
  {
    hide Decode, Log, StoresOk, Rest;
    var w := s.worker;
    var c := Delivered(s.queue, AllPosts(w));
    NotBefore(s);
    PostAt(w, c);
    DeliveredAtMost(s);
    if s.queue != [] {
      RestDeliver(s.queue, AllPosts(w));
      LastIsBlocking(s);
    }
    if !s.main.wkLife {
      OffMeansNothingDelivered(s);
      assert false;
    }
  }

  // ---------- reset, stop, end of a run ----------

  predicate PacketCall(e: Event) {
    e.UpdateMd? || e.DumpPushBack?
  }

  lemma EarlyPosts(w: WorkerState)
    requires w.phase in {Starting, Failing, Opened}
    ensures forall i | 0 <= i < |AllPosts(w)| :: !PacketCall(AllPosts(w)[i])
  {
    hide Log, EventsOf;
  }

  /** A call in the queue is a leftover, or stands at its place among the posts of the worker. */
  lemma QueuedCall(q: seq<Event>, p: seq<Event>, k: nat)
    requires Rest(q, p) && k < |q|
    ensures if k >= |q| - |p| then q[k] == p[k - |q| + |p|] else Leftover(q[k])
  {
    hide Leftover;
    if |q| <= |p| {
      assert q == p[|p| - |q|..];
    } else {
      assert q[|q| - |p|..] == p;
    }
  }

  /** A queued packet call comes from a worker that has entered its loop. */
  lemma NotInTheLoop(s: State, k: nat)
    requires Inv(s) && !Quiet(s.worker.phase) && k < |s.queue| && PacketCall(s.queue[k])
    ensures Announced(s.worker.phase) && WorkerOk(s.worker)
    ensures k >= |s.queue| - |AllPosts(s.worker)|
    ensures s.queue[k] == AllPosts(s.worker)[k - |s.queue| + |AllPosts(s.worker)|]
  {
    hide WorkerOk, StoresOk, FlagsOk, AllPosts, Rest;
    QueuedCall(s.queue, AllPosts(s.worker), k);
    if s.worker.phase in {Starting, Failing, Opened} {
      EarlyPosts(s.worker);
    }
  }

  lemma AnnouncedBefore(s: State, k: nat) returns (j: nat)
    requires Inv(s) && !s.main.wkLife && !Quiet(s.worker.phase)
    requires k < |s.queue| && PacketCall(s.queue[k])
    ensures j < k && s.queue[j] == SetWkLife(true)
  {
    var q, p := s.queue, AllPosts(s.worker);
    var first := |q| - |p|;
    NotInTheLoop(s, k);
    OffMeansBeforeAnnouncement(s);
    hide WorkerOk, FlagsOk, StoresOk, AllPosts, PacketPosts;
    PostAt(s.worker, k - first);
    PostAt(s.worker, 1);
    j := first + 1;
    assert q[j] == p[1];
  }

  /**
   Reset cannot separate a row from its bytes: when wk_life is off no packet is half delivered, and every
   packet call still queued lies behind a queued call that turns wk_life on.
   */
  lemma ResetNeverSeparates(s: State, k: nat)
    requires Inv(s) && !s.main.wkLife
    ensures HalfDelivered(s).None?
    ensures k < |s.queue| && PacketCall(s.queue[k]) ==> exists j :: 0 <= j < k && s.queue[j] == SetWkLife(true)
  {
    hide Decode, Log, StoresOk;
    if Quiet(s.worker.phase) {
      LeftoverOnly(s);
    } else {
      OffMeansNothingDelivered(s);
      if k < |s.queue| && PacketCall(s.queue[k]) {
        var j := AnnouncedBefore(s, k);
      }
    }
  }

  /** Once a finished worker's queue has drained, the session is idle, and rows and stored packets are in bijection. */
  lemma DrainedIsIdle(s: State)
    requires Inv(s) && Quiet(s.worker.phase) && s.queue == []
    ensures !s.main.wkLife && !s.main.wkPp
    ensures HalfDelivered(s).None?
    ensures multiset(s.main.list.vec) == multiset(RowsOf(s.main.dumps))
  {
    hide Decode, Log, AllPosts, RowsOf;
  }

  // ---------- the column headers ----------

  /** Every row shown has printed addresses, so every header can be pressed in every reachable state. */
  lemma HeadersWork(s: State, b: Button)
    requires Inv(s)
    ensures forall r | r in s.main.list.vec :: HasAddresses(r)
    ensures AllComparable(OrderOf(s.main.list, b), s.main.list.vec)
  {
    hide Decode, HasAddresses, Comparable, RowOfDump, HalfDelivered, StoresOk, QueueOk, WorkerOk, Shown;
    var v, ds := s.main.list.vec, Shown(s);
    ShownRows(s);
    forall r | r in v
      ensures HasAddresses(r) && Comparable(OrderOf(s.main.list, b), r)
    {
      RowHasPacket(v, ds, r);
      RowsAddressed(ds, r.num);
      AddressedComparable(OrderOf(s.main.list, b), r);
    }
  }
}
