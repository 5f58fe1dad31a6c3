/** Every action keeps the invariant of the session, so it holds along every run. */
module Invariant {
  import opened Rows
  import opened Capture
  import opened Decoder
  import opened Records
  import opened Session
  import opened Protocol

  lemma StartOk()
    ensures Inv(START)
  {
    hide Decode, RowOfDump;
    assert Log(0, []) == [] && RowsOf([]) == [];
    assert AllPosts(START.worker) == [] && Rest([], []);
    hide Log, AllPosts, RowsOf, EventsOf;
  }

  // ---------- what leaves the stores alone ----------

  /** Neither store changes, nor what of the current log is due in them. */
  ghost predicate SameStores(s: State, t: State) {
    && t.main.list.vec == s.main.list.vec && t.main.dumps == s.main.dumps
    && Quiet(t.worker.phase) == Quiet(s.worker.phase)
    && (!Quiet(s.worker.phase) ==> DumpsDue(t) == DumpsDue(s) && RowsDue(t) == RowsDue(s))
  }

  lemma StoresKept(s: State, t: State)
    requires StoresOk(s) && SameStores(s, t)
    ensures StoresOk(t)
  {
    hide Decode, DumpsDue, RowsDue;
  }

  /** Appending to the log, with nothing more delivered, leaves the due part of it as it is. */
  lemma SameDue(s: State, t: State)
    requires Progress(s.worker) <= Progress(t.worker)
    requires PacketsDelivered(t) == PacketsDelivered(s)
    ensures DumpsDue(t) == DumpsDue(s) && RowsDue(t) == RowsDue(s)
  {
    hide Log;
  }

  // ---------- the worker's steps ----------

  /** A post that adds es to everything posted so far delivers nothing. */
  lemma PostKeepsRest(s: State, t: State, es: seq<Event>)
    requires Rest(s.queue, AllPosts(s.worker))
    requires t.queue == s.queue + es && AllPosts(t.worker) == AllPosts(s.worker) + es
    ensures Rest(t.queue, AllPosts(t.worker))
    ensures Delivered(t.queue, AllPosts(t.worker)) == Delivered(s.queue, AllPosts(s.worker))
  {
    hide AllPosts;
    RestPost(s.queue, AllPosts(s.worker), es);
  }

  /** Before the loop is entered nothing of the current worker is in the stores. */
  lemma NothingDue(s: State)
    requires WorkerOk(s.worker) && s.worker.phase in {Absent, Starting, Failing, Failed, Opened}
    ensures DumpsDue(s) == [] && RowsDue(s) == []
  {
  }

  lemma OpenOkKeepsInv(s: State)
    requires Inv(s) && s.worker.phase == Starting
    ensures Inv(Opening(s, true))
  {
    hide Log, LifeAfter, StoresOk, Rest;
    var t := Opening(s, true);
    assert AllPosts(s.worker) == [];
    assert AllPosts(t.worker) == [] + [SetWkPp(true)];
    PostKeepsRest(s, t, [SetWkPp(true)]);
    LifeAfterPost(s.main.wkLife, s.queue, SetWkPp(true));
    NothingDue(s);
    NothingDue(t);
    StoresKept(s, t);
  }

  /** Stores with nothing due in them are those of an idle session. */
  lemma NothingStored(s: State, t: State)
    requires StoresOk(s) && !Quiet(s.worker.phase) && DumpsDue(s) == [] && RowsDue(s) == []
    requires t.main == s.main && Quiet(t.worker.phase)
    ensures StoresOk(t)
  {
    hide Decode, DumpsDue, RowsDue;
    assert RowsOf([]) == [];
  }

  lemma OpenFailKeepsInv(s: State)
    requires Inv(s) && s.worker.phase == Starting
    ensures Inv(Opening(s, false))
  {
    hide Log, LifeAfter, StoresOk, Rest;
    var t := Opening(s, false);
    assert AllPosts(s.worker) == [];
    assert AllPosts(t.worker) == [] + [SetWkLife(false)];
    PostKeepsRest(s, t, [SetWkLife(false)]);
    LifeAfterPost(s.main.wkLife, s.queue, SetWkLife(false));
    NothingDue(s);
    NothingDue(t);
    StoresKept(s, t);
  }

  lemma FailurePosts(w: WorkerState, v: WorkerState)
    requires w.phase == Failing && v == w.(phase := Failed)
    ensures AllPosts(v) == AllPosts(w) + [SetWkFlag(false)]
  {
    hide Log, EventsOf;
  }

  lemma GiveUpFlags(s: State, t: State)
    requires FlagsOk(s) && s.worker.phase == Failing && t == GivingUp(s)
    ensures FlagsOk(t)
  {
    hide AllPosts, LifeAfter, Delivered;
    LifeAfterPost(s.main.wkLife, s.queue, SetWkFlag(false));
  }

  lemma GiveUpQueue(s: State, t: State)
    requires QueueOk(s) && s.worker.phase == Failing && t == GivingUp(s)
    ensures QueueOk(t)
  {
    hide AllPosts, Rest, Delivered;
    FailurePosts(s.worker, t.worker);
    PostKeepsRest(s, t, [SetWkFlag(false)]);
  }

  lemma GiveUpKeepsInv(s: State)
    requires Inv(s) && s.worker.phase == Failing
    ensures Inv(GivingUp(s))
  {
    hide QueueOk, FlagsOk, DumpsDue, RowsDue, StoresOk, Log;
    var t := GivingUp(s);
    GiveUpQueue(s, t);
    GiveUpFlags(s, t);
    NothingDue(s);
    NothingStored(s, t);
  }

  lemma AnnouncePosts(w: WorkerState, v: WorkerState)
    requires w.phase == Opened && w.frames == [] && v == w.(phase := Looping)
    ensures AllPosts(v) == AllPosts(w) + [SetWkLife(true)]
    ensures PacketPosts(v) == PacketPosts(w) == 0
  {
    hide Decode;
    assert Log(0, []) == [];
    assert EventsOf([]) == [];
  }

  lemma AnnounceKeepsInv(s: State)
    requires Inv(s) && s.worker.phase == Opened
    ensures Inv(Announcing(s))
  {
    hide Decode, AllPosts, Rest, LifeAfter;
    var t := Announcing(s);
    AnnouncePosts(s.worker, t.worker);
    PostKeepsRest(s, t, [SetWkLife(true)]);
    LifeAfterPost(s.main.wkLife, s.queue, SetWkLife(true));
    SameDue(s, t);
    StoresKept(s, t);
  }

  lemma FrameKeepsWorker(w: WorkerState, r: Record, v: WorkerState)
    requires WorkerOk(w) && w.phase == Looping && Safe(r)
    requires v.frames == w.frames + [r]
    requires if Accepts(r) then v.phase == Handling && v.num == w.num + 1 else v.phase == Looping && v.num == w.num
    ensures WorkerOk(v) && Progress(v) == Progress(w) + Logged(w.num, r)
  {
    hide Decode, Log, DumpOf, Safe;
    LogSnoc(0, w.frames, r);
  }

  lemma RejectedPosts(w: WorkerState, r: Record, v: WorkerState)
    requires WorkerOk(w) && w.phase == Looping && Safe(r) && !Accepts(r)
    requires v == w.(frames := w.frames + [r])
    ensures WorkerOk(v) && Progress(v) == Progress(w)
    ensures AllPosts(v) == AllPosts(w)
  {
    hide Decode;
    FrameKeepsWorker(w, r, v);
    assert Progress(w) + [] == Progress(w);
  }

  lemma RejectedKeepsInv(s: State, r: Record)
    requires Inv(s) && s.worker.phase == Looping && Safe(r) && !Accepts(r)
    ensures Inv(Beginning(s, r))
  {
    hide Decode, Log, AllPosts, Rest, LifeAfter, Accepts;
    var t := Beginning(s, r);
    RejectedPosts(s.worker, r, t.worker);
    assert t.queue == s.queue;
    assert PacketsDelivered(t) == PacketsDelivered(s);
    SameDue(s, t);
    StoresKept(s, t);
  }

  lemma LoopingPosts(w: WorkerState)
    requires w.phase == Looping
    ensures AllPosts(w) == [SetWkPp(true), SetWkLife(true)] + EventsOf(Progress(w))
    ensures PacketPosts(w) == 2 * |Progress(w)|
  {
    hide Log, EventsOf;
  }

  lemma HandlingPosts(w: WorkerState)
    requires w.phase == Handling && Progress(w) != []
    ensures var ds := Progress(w);
      && AllPosts(w) == [SetWkPp(true), SetWkLife(true)] + EventsOf(ds)[..2 * |ds| - 1]
      && PacketPosts(w) == 2 * |ds| - 1
  {
    hide Log, EventsOf;
  }

  lemma OneOfTwo(es: seq<Event>, e: Event, f: Event)
    ensures (es + [e, f])[..|es| + 1] == es + [e]
  {
  }

  /** Beginning a packet extends what is posted by its row alone. */
  lemma BeginPosts(w: WorkerState, r: Record, v: WorkerState)
    requires WorkerOk(w) && w.phase == Looping && Safe(r) && Accepts(r)
    requires v == WorkerState(Handling, w.num + 1, w.frames + [r])
    ensures WorkerOk(v) && Progress(v) == Progress(w) + [DumpOf(w.num, r)]
    ensures AllPosts(v) == AllPosts(w) + [UpdateMd(RowOfDump(DumpOf(w.num, r)))]
    ensures PacketPosts(v) == PacketPosts(w) + 1
  {
    var d := DumpOf(w.num, r);
    FrameKeepsWorker(w, r, v);
    hide Decode, Log, AllPosts, PacketPosts, EventsOf, RowOfDump, DumpOf, Accepts, WorkerOk;
    assert Progress(v) == Progress(w) + [d];
    LoopingPosts(w);
    HandlingPosts(v);
    EventsOfSnoc(Progress(w), d);
    OneOfTwo(EventsOf(Progress(w)), UpdateMd(RowOfDump(d)), DumpPushBack(d));
  }

  /** While packets are posted, no more calls are delivered than were posted. */
  lemma DeliveredAtMost(s: State)
    requires Announced(s.worker.phase) && WorkerOk(s.worker)
    ensures Delivered(s.queue, AllPosts(s.worker)) <= PostCount(s.worker)
  {
    hide Decode, Log;
    PostAt(s.worker, 0);
  }

  lemma BeginKeepsInv(s: State, r: Record)
    requires Inv(s) && s.worker.phase == Looping && Safe(r) && Accepts(r)
    ensures Inv(Beginning(s, r))
  {
    hide Decode, Log, Rest;
    var t := Beginning(s, r);
    var e := UpdateMd(RowOfDump(DumpOf(s.worker.num, r)));
    BeginPosts(s.worker, r, t.worker);
    PostKeepsRest(s, t, [e]);
    LifeAfterPost(s.main.wkLife, s.queue, e);
    DeliveredAtMost(s);
    SameDue(s, t);
    StoresKept(s, t);
  }

  lemma EndPosts(w: WorkerState, v: WorkerState)
    requires WorkerOk(w) && w.phase == Handling && v == w.(phase := Looping)
    ensures WorkerOk(v) && Progress(v) == Progress(w) != []
    ensures AllPosts(v) == AllPosts(w) + [DumpPushBack(Progress(w)[|Progress(w)| - 1])]
    ensures PacketPosts(v) == PacketPosts(w) + 1
  {
    hide Decode, Log;
    var ds := Progress(w);
    var n := |ds| - 1;
    var es := EventsOf(ds);
    assert es == es[..2 * |ds| - 1] + [DumpPushBack(ds[n])];
  }

  lemma EndKeepsInv(s: State)
    requires Inv(s) && s.worker.phase == Handling
    ensures Inv(Ending(s))
  {
    hide Decode, Log, Rest;
    var t := Ending(s);
    var e := DumpPushBack(Progress(s.worker)[|Progress(s.worker)| - 1]);
    EndPosts(s.worker, t.worker);
    PostKeepsRest(s, t, [e]);
    LifeAfterPost(s.main.wkLife, s.queue, e);
    DeliveredAtMost(s);
    SameDue(s, t);
    StoresKept(s, t);
  }

  lemma LeaveKeepsInv(s: State)
    requires Inv(s) && s.worker.phase == Looping
    ensures Inv(Leaving(s))
  {
    hide Decode, Log, Rest;
    var t := Leaving(s);
    assert AllPosts(t.worker) == AllPosts(s.worker) + [ClearWkPp];
    PostKeepsRest(s, t, [ClearWkPp]);
    LifeAfterPost(s.main.wkLife, s.queue, ClearWkPp);
    SameDue(s, t);
    StoresKept(s, t);
  }

  lemma ReleasedCount(s: State)
    requires s.worker.phase == Released && s.queue == []
    ensures PacketsDelivered(s) == 2 * |Progress(s.worker)|
  {
    PostCountIs(s.worker);
    hide Log, AllPosts, EventsOf;
  }

  lemma WholePrefix(ds: seq<Dump>, k: nat)
    requires k == 2 * |ds|
    ensures ds[..k / 2] == ds && ds[..(k + 1) / 2] == ds
  {
  }

  lemma ReleasedDue(s: State)
    requires s.worker.phase == Released && s.queue == []
    ensures DumpsDue(s) == RowsDue(s) == Progress(s.worker)
  {
    hide Progress, PacketsDelivered;
    ReleasedCount(s);
    WholePrefix(Progress(s.worker), PacketsDelivered(s));
  }

  /** When the worker is released, everything it posted is delivered, so both stores hold its whole log. */
  lemma ReleasedHoldsLog(s: State)
    requires Inv(s) && s.worker.phase == Released
    ensures s.queue == [] && !s.main.wkPp && s.main.wkLife
    ensures s.main.dumps == Log(0, s.worker.frames)
    ensures multiset(s.main.list.vec) == multiset(RowsOf(s.main.dumps))
  {
    ReleasedDue(s);
    hide Log, AllPosts, Delivered, DumpsDue, RowsDue, RowsOf, WorkerOk, Rest;
  }

  lemma FinishPosts(w: WorkerState, v: WorkerState)
    requires w.phase == Released && v == w.(phase := Finished)
    ensures AllPosts(v) == AllPosts(w) + [SetWkLife(false)]
  {
    hide Decode, Log;
    var es := EventsOf(Progress(w));
    assert [ClearWkPp, SetWkLife(false)] == [ClearWkPp] + [SetWkLife(false)];
  }

  lemma FinishKeepsInv(s: State)
    requires Inv(s) && s.worker.phase == Released
    ensures Inv(Finishing(s))
  {
    hide Decode, Log, Rest, AllPosts, LifeAfter, RowsOf;
    var t := Finishing(s);
    ReleasedHoldsLog(s);
    FinishPosts(s.worker, t.worker);
    PostKeepsRest(s, t, [SetWkLife(false)]);
    LifeAfterPost(s.main.wkLife, s.queue, SetWkLife(false));
    LogIsNumbered(0, s.worker.frames);
    LogIsComplete(0, s.worker.frames);
  }

  // ---------- deliveries ----------

  /** A worker that is done has outlived the leftovers before it. */
  lemma NotDone(s: State)
    requires WorkerOk(s.worker) && QueueOk(s) && |s.queue| > |AllPosts(s.worker)|
    ensures s.worker.phase != Released && s.worker.phase != Finished
    ensures s.worker.phase == Blocked ==> |s.queue| > 1
  {
    hide Decode, Log;
    if s.worker.phase == Blocked {
      PostAt(s.worker, 0);
    }
    if s.worker.phase == Finished {
      FinishPosts(s.worker.(phase := Released), s.worker);
    }
  }

  lemma LeftoverQueue(s: State)
    requires WorkerOk(s.worker) && QueueOk(s) && s.queue != [] && |s.queue| > |AllPosts(s.worker)|
    ensures Leftover(s.queue[0]) && Delivering(s).worker == s.worker
    ensures QueueOk(Delivering(s))
    ensures Delivered(s.queue[1..], AllPosts(s.worker)) == Delivered(s.queue, AllPosts(s.worker)) == 0
  {
    NotDone(s);
    hide WorkerOk, AllPosts, Rest;
    RestDeliver(s.queue, AllPosts(s.worker));
    assert Delivering(s).queue == s.queue[1..];
  }

  /** Delivering a leftover of an earlier worker. */
  lemma DeliverLeftover(s: State)
    requires Inv(s) && s.queue != [] && |s.queue| > |AllPosts(s.worker)|
    ensures Inv(Delivering(s))
  {
    hide AllPosts, QueueOk, WorkerOk, LifeAfter, Progress, PacketPosts, Delivered;
    var t := Delivering(s);
    LeftoverQueue(s);
    LifeAfterDeliver(s.main, s.queue);
    assert FlagsOk(t);
    hide FlagsOk;
    assert PacketsDelivered(t) == PacketsDelivered(s);
    SameDue(s, t);
    StoresKept(s, t);
  }

  /** The flag call delivered next by a worker that is not in its loop. */
  lemma NextFlag(s: State)
    requires Inv(s) && s.queue != [] && |s.queue| <= |AllPosts(s.worker)|
    requires !Announced(s.worker.phase)
    ensures s.worker.phase in {Finished, Failing, Failed, Opened}
    ensures s.worker.phase == Finished ==> s.queue == [SetWkLife(false)]
    ensures s.worker.phase == Failing ==> s.queue == [SetWkLife(false)]
    ensures s.worker.phase == Failed ==> s.queue[0] == SetWkLife(false) || s.queue[0] == SetWkFlag(false)
    ensures s.worker.phase == Opened ==> s.queue == [SetWkPp(true)]
  {
    hide Decode, Log, StoresOk, FlagsOk;
    if s.worker.phase == Finished {
      FinishPosts(s.worker.(phase := Released), s.worker);
    }
  }

  lemma FlagsAfterFlag(s: State)
    requires WorkerOk(s.worker) && QueueOk(s) && FlagsOk(s) && s.queue != [] && |s.queue| <= |AllPosts(s.worker)|
    requires s.worker.phase in {Finished, Failing, Failed, Opened}
    requires s.worker.phase == Finished ==> s.queue == [SetWkLife(false)]
    requires s.worker.phase == Failing ==> s.queue == [SetWkLife(false)]
    requires s.worker.phase == Failed ==> s.queue[0] == SetWkLife(false) || s.queue[0] == SetWkFlag(false)
    requires s.worker.phase == Opened ==> s.queue == [SetWkPp(true)]
    ensures FlagsOk(Delivering(s))
  {
    hide Decode, Log, AllPosts, Rest, LifeAfter;
    var t := Delivering(s);
    RestDeliver(s.queue, AllPosts(s.worker));
    LifeAfterDeliver(s.main, s.queue);
    assert t.worker == s.worker;
  }

  /** Delivering a flag call of a worker that is not in its loop. */
  lemma DeliverFlag(s: State)
    requires Inv(s) && s.queue != [] && |s.queue| <= |AllPosts(s.worker)|
    requires !Announced(s.worker.phase)
    ensures Inv(Delivering(s))
  {
    hide Decode, Log, AllPosts, Rest;
    var t := Delivering(s);
    NextFlag(s);
    RestDeliver(s.queue, AllPosts(s.worker));
    LifeAfterDeliver(s.main, s.queue);
    if s.worker.phase in {Failing, Opened} {
      NothingDue(s);
      NothingDue(t);
    }
    StoresKept(s, t);
    FlagsAfterFlag(s);
    assert QueueOk(t);
    assert WorkerOk(t.worker);
  }

  /** The call delivered next by an announced worker whose predecessors' calls are all delivered. */
  lemma DeliverPost(s: State)
    requires Inv(s) && s.queue != [] && |s.queue| <= |AllPosts(s.worker)|
    requires Announced(s.worker.phase)
    ensures var c := Delivered(s.queue, AllPosts(s.worker));
      && c < PostCount(s.worker) && s.queue[0] == ExpectedPost(s.worker, c)
      && Rest(s.queue[1..], AllPosts(s.worker))
      && Delivered(s.queue[1..], AllPosts(s.worker)) == c + 1
  {
    hide Decode, Log;
    RestDeliver(s.queue, AllPosts(s.worker));
    PostAt(s.worker, Delivered(s.queue, AllPosts(s.worker)));
  }

  /** A blocked worker's queue cannot be drained without delivering the call it waits for. */
  lemma DeliveredInTime(s: State)
    requires Inv(s) && s.queue != [] && |s.queue| <= |AllPosts(s.worker)|
    requires Announced(s.worker.phase)
    ensures s.worker.phase != Released
    ensures s.worker.phase == Blocked && Delivered(s.queue, AllPosts(s.worker)) < 2 + PacketPosts(s.worker) ==>
      s.queue[1..] != []
    ensures s.worker.phase in {Looping, Handling} ==> Delivered(s.queue, AllPosts(s.worker)) < 2 + PacketPosts(s.worker)
    ensures s.worker.phase == Blocked && Delivered(s.queue, AllPosts(s.worker)) == 2 + PacketPosts(s.worker) ==>
      s.queue[1..] == []
  {
    hide Decode, Log;
    PostAt(s.worker, 0);
  }

  lemma DeliverOpening(s: State)
    requires Inv(s) && s.queue != [] && |s.queue| <= |AllPosts(s.worker)|
    requires Announced(s.worker.phase) && Delivered(s.queue, AllPosts(s.worker)) < 2
    ensures Inv(Delivering(s))
  {
    hide Decode, Log, AllPosts, Rest;
    var t := Delivering(s);
    DeliverPost(s);
    LifeAfterDeliver(s.main, s.queue);
    DeliveredInTime(s);
    SameDue(s, t);
    StoresKept(s, t);
  }

  /** Delivering one packet call moves one packet's row, or one packet's bytes, into its store. */
  lemma DeliverPacketStores(s: State, t: State, i: nat)
    requires StoresOk(s) && !Quiet(s.worker.phase) && t.worker == s.worker
    requires PacketsDelivered(s) == i < PacketPosts(s.worker) && PacketsDelivered(t) == i + 1
    requires t.main == Handle(s.main, PacketPost(s.worker, i))
    ensures StoresOk(t)
  {
    hide Decode, Log, PacketsDelivered, RowOfDump;
    var ds := Progress(s.worker);
    var k := i / 2;
    assert k < |ds|;
    assert ds[..k + 1] == ds[..k] + [ds[k]];
    if i % 2 == 0 {
      assert RowsDue(s) == ds[..k] && RowsDue(t) == ds[..k + 1];
      RowsOfSnoc(ds[..k], ds[k]);
      assert multiset(s.main.list.vec + [RowOfDump(ds[k])]) == multiset(RowsOf(ds[..k]) + [RowOfDump(ds[k])]);
    } else {
      assert DumpsDue(s) == ds[..k] && DumpsDue(t) == ds[..k + 1];
      assert RowsDue(s) == RowsDue(t);
    }
  }

  lemma DeliverPacket(s: State)
    requires Inv(s) && s.queue != [] && |s.queue| <= |AllPosts(s.worker)|
    requires Announced(s.worker.phase)
    requires 2 <= Delivered(s.queue, AllPosts(s.worker)) < 2 + PacketPosts(s.worker)
    ensures Inv(Delivering(s))
  {
    hide Decode, Log, AllPosts, Rest, StoresOk;
    var t := Delivering(s);
    DeliverPost(s);
    LifeAfterDeliver(s.main, s.queue);
    DeliveredInTime(s);
    DeliverPacketStores(s, t, Delivered(s.queue, AllPosts(s.worker)) - 2);
  }

  /** Once every packet call is delivered, the next delivery releases the worker. */
  lemma DeliverLast(s: State)
    requires Inv(s) && s.queue != [] && |s.queue| <= |AllPosts(s.worker)|
    requires Announced(s.worker.phase)
    requires Delivered(s.queue, AllPosts(s.worker)) == 2 + PacketPosts(s.worker)
    ensures Inv(Delivering(s)) && Delivering(s).worker.phase == Released
    ensures s.worker.phase == Blocked && s.queue[1..] == []
  {
    hide Decode, Log, Rest;
    var t := Delivering(s);
    DeliverPost(s);
    LifeAfterDeliver(s.main, s.queue);
    DeliveredInTime(s);
    assert AllPosts(t.worker) == AllPosts(s.worker);
    SameDue(s, t);
    StoresKept(s, t);
  }

  /** A queued blocking call whose turn has come is preceded by all packet calls of its worker, now delivered. */
  lemma ClearIsLast(s: State)
    requires Inv(s) && s.queue != [] && s.queue[0] == ClearWkPp
    ensures |s.queue| <= |AllPosts(s.worker)| && Announced(s.worker.phase)
    ensures Delivered(s.queue, AllPosts(s.worker)) == 2 + PacketPosts(s.worker)
  {
    hide AllPosts, QueueOk, WorkerOk, Rest, PacketPosts, StoresOk, FlagsOk, Delivered;
    if |s.queue| > |AllPosts(s.worker)| {
      LeftoverQueue(s);
    } else if !Announced(s.worker.phase) {
      NextFlag(s);
    } else {
      DeliverPost(s);
    }
  }

  /**
   Delivering the blocking call: it is the only call left in the queue, its worker is waiting for it, and with it
   the worker is released, the queue is drained and both stores hold everything the worker accepted.
   */
  lemma DeliverClear(s: State)
    requires Inv(s) && s.queue != [] && s.queue[0] == ClearWkPp
    ensures s.queue == [ClearWkPp] && s.worker.phase == Blocked
    ensures var t := Delivering(s);
      && Inv(t) && t.worker.phase == Released && t.queue == [] && !t.main.wkPp
      && t.main.dumps == Log(0, s.worker.frames)
      && multiset(t.main.list.vec) == multiset(RowsOf(t.main.dumps))
  {
    hide Inv, Log, AllPosts, PacketPosts, RowsOf;
    ClearIsLast(s);
    DeliverLast(s);
    ReleasedHoldsLog(Delivering(s));
    assert s.queue == [s.queue[0]] + s.queue[1..];
  }

  lemma DeliverKeepsInv(s: State)
    requires Inv(s) && s.queue != []
    ensures Inv(Delivering(s))
  {
    hide Decode, Log, AllPosts, StoresOk, Rest, FlagsOk;
    if |s.queue| > |AllPosts(s.worker)| {
      DeliverLeftover(s);
    } else if !Announced(s.worker.phase) {
      DeliverFlag(s);
    } else {
      DeliverPost(s);
      if Delivered(s.queue, AllPosts(s.worker)) < 2 {
        DeliverOpening(s);
      } else if Delivered(s.queue, AllPosts(s.worker)) < 2 + PacketPosts(s.worker) {
        DeliverPacket(s);
      } else {
        DeliverLast(s);
      }
    }
  }

  // ---------- the user's commands ----------

  /** Starting anew after a quiet worker leaves the flags as they are due. */
  lemma FreshFlags(s: State, t: State)
    requires FlagsOk(s) && Quiet(s.worker.phase)
    requires t == State(Created(s.main), s.queue, WorkerState(Starting, 0, []))
    ensures FlagsOk(t)
  {
    hide LifeAfter, AllPosts, Delivered;
  }

  lemma FreshWorker(w: WorkerState)
    requires w == WorkerState(Starting, 0, [])
    ensures WorkerOk(w) && AllPosts(w) == []
  {
  }

  lemma FreshQueue(t: State)
    requires t.worker == WorkerState(Starting, 0, [])
    requires forall i | 0 <= i < |t.queue| :: Leftover(t.queue[i])
    ensures QueueOk(t)
  {
    hide Leftover;
    assert AllPosts(t.worker) == [];
    assert t.queue[|t.queue|..] == [];
  }

  lemma EmptyStores(t: State)
    requires t.main.list.vec == [] && t.main.dumps == [] && !Quiet(t.worker.phase)
    requires DumpsDue(t) == [] && RowsDue(t) == []
    ensures StoresOk(t)
  {
    hide Decode, DumpsDue, RowsDue;
    assert RowsOf([]) == [];
  }

  lemma QuietPosts(w: WorkerState)
    requires w.phase in {Absent, Failed}
    ensures forall i | 0 <= i < |AllPosts(w)| :: Leftover(AllPosts(w)[i])
  {
    hide Log;
  }

  lemma FinishedQueue(s: State)
    requires QueueOk(s) && s.worker.phase == Finished
    ensures s.queue == [] || s.queue == [SetWkLife(false)]
  {
    FinishPosts(s.worker.(phase := Released), s.worker);
    hide AllPosts;
    var p := AllPosts(s.worker);
    assert p[|p| - 1] == SetWkLife(false);
    assert s.queue == p[|p| - |s.queue|..];
  }

  lemma RestOfLeftovers(q: seq<Event>, p: seq<Event>)
    requires Rest(q, p) && forall i | 0 <= i < |p| :: Leftover(p[i])
    ensures forall i | 0 <= i < |q| :: Leftover(q[i])
  {
    hide Leftover;
    var first := |q| - |p|;
    forall i | 0 <= i < |q|
      ensures Leftover(q[i])
    {
      if i >= first {
        assert q[i] == p[i - first];
      }
    }
  }

  /** A quiet worker leaves at most flag calls in the queue. */
  lemma LeftoverOnly(s: State)
    requires WorkerOk(s.worker) && QueueOk(s) && Quiet(s.worker.phase)
    ensures forall i | 0 <= i < |s.queue| :: Leftover(s.queue[i])
  {
    hide AllPosts, WorkerOk, Rest;
    if s.worker.phase == Finished {
      FinishedQueue(s);
    } else {
      QuietPosts(s.worker);
      hide Leftover;
      RestOfLeftovers(s.queue, AllPosts(s.worker));
    }
  }

  lemma FreshWorkerKeepsInv(s: State, t: State)
    requires Inv(s) && Quiet(s.worker.phase)
    requires t == State(Created(s.main), s.queue, WorkerState(Starting, 0, []))
    ensures Inv(t)
  {
    LeftoverOnly(s);
    FreshWorker(t.worker);
    hide WorkerOk, AllPosts, LifeAfter;
    FreshFlags(s, t);
    hide FlagsOk;
    FreshQueue(t);
    hide QueueOk, Leftover;
    NothingDue(t);
    hide DumpsDue, RowsDue;
    EmptyStores(t);
  }

  lemma CreateKeepsInv(s: State, nicName: string)
    requires Inv(s) && (nicName == "" || Quiet(s.worker.phase))
    ensures Inv(Creating(s, nicName))
  {
    hide Decode;
    if nicName != "" {
      FreshWorkerKeepsInv(s, Creating(s, nicName));
    }
  }

  lemma StopKeepsInv(s: State)
    requires Inv(s)
    ensures Inv(Commanding(s, Stopped(s.main)))
  {
    hide Decode, Log, AllPosts, Rest;
    StoresKept(s, Commanding(s, Stopped(s.main)));
  }

  lemma LaterPostsKeepLife(w: WorkerState, k: nat)
    requires Announced(w.phase) && WorkerOk(w) && 2 <= k < |AllPosts(w)|
    ensures !AllPosts(w)[k].SetWkLife?
  {
    hide AllPosts, Log;
    PostAt(w, k);
  }

  /** With wk_life off, the call that turns it on is still to be delivered. */
  lemma OffMeansBeforeAnnouncement(s: State)
    requires Inv(s) && !s.main.wkLife && Announced(s.worker.phase)
    ensures Delivered(s.queue, AllPosts(s.worker)) < 2
  {
    hide Log, StoresOk, AllPosts, WorkerOk, PacketPosts;
    var p := AllPosts(s.worker);
    var c := Delivered(s.queue, p);
    if c >= 2 {
      forall i | 0 <= i < |s.queue|
        ensures !s.queue[i].SetWkLife?
      {
        LaterPostsKeepLife(s.worker, c + i);
        assert s.queue[i] == p[c + i];
      }
      LifeUnchanged(s.main.wkLife, s.queue);
      assert false;
    }
  }

  lemma NoPackets(w: WorkerState)
    requires w.frames == []
    ensures PacketPosts(w) == 0
  {
  }

  /** With wk_life off, a worker that is not done has nothing in the stores yet. */
  lemma OffMeansNothingDelivered(s: State)
    requires Inv(s) && !s.main.wkLife && !Quiet(s.worker.phase)
    ensures PacketsDelivered(s) == 0
  {
    hide QueueOk, FlagsOk, StoresOk, AllPosts, Delivered, PacketPosts;
    if Announced(s.worker.phase) {
      OffMeansBeforeAnnouncement(s);
    } else {
      NoPackets(s.worker);
    }
  }

  lemma ResetKeepsInv(s: State)
    requires Inv(s)
    ensures Inv(Commanding(s, WhenReset(s.main)))
  {
    hide Decode, Log, AllPosts, Rest;
    var t := Commanding(s, WhenReset(s.main));
    if !s.main.wkLife {
      if !Quiet(s.worker.phase) {
        OffMeansNothingDelivered(s);
      }
      assert RowsOf([]) == [];
    }
  }

  lemma PressKeepsInv(s: State, b: Button, result: List)
    requires Inv(s) && Pressed(s.main.list, b, result)
    ensures Inv(Commanding(s, s.main.(list := result)))
  {
    hide Decode, Log, AllPosts, Rest, AllComparable, SortedBy, LifeAfter, Delivered;
    var t := Commanding(s, s.main.(list := result));
    assert ValidList(result);
    assert StoresOk(t) by {
      hide FlagsOk, QueueOk, WorkerOk, RowsOf;
      assert DumpsDue(t) == DumpsDue(s) && RowsDue(t) == RowsDue(s);
    }
  }

  lemma ReadKeepsInv(s: State, frames: seq<Record>)
    requires Inv(s) && Quiet(s.worker.phase) && s.main.list.vec == [] && s.main.dumps == [] && AllSafe(frames)
    ensures Inv(Commanding(s, FileRead(s.main, frames)))
  {
    hide Decode, AllPosts, Rest;
    var t := Commanding(s, FileRead(s.main, frames));
    LogIsNumbered(0, frames);
    LogIsComplete(0, frames);
    assert [] + Log(0, frames) == Log(0, frames);
    assert [] + RowsOf(Log(0, frames)) == RowsOf(Log(0, frames));
  }

  // ---------- all actions, all runs ----------

  lemma NextKeepsInv(s: State, a: Action)
    requires Inv(s) && Enabled(s, a)
    ensures Inv(Next(s, a))
  {
    hide Decode, Inv, Log;
    match a
    case Open(ok) => if ok { OpenOkKeepsInv(s); } else { OpenFailKeepsInv(s); }
    case GiveUp => GiveUpKeepsInv(s);
    case AnnounceLife => AnnounceKeepsInv(s);
    case BeginPacket(r) => if Accepts(r) { BeginKeepsInv(s, r); } else { RejectedKeepsInv(s, r); }
    case EndPacket => EndKeepsInv(s);
    case LeaveLoop => LeaveKeepsInv(s);
    case Finish => FinishKeepsInv(s);
    case Deliver => DeliverKeepsInv(s);
    case CreateThread(nicName) => CreateKeepsInv(s, nicName);
    case Stop => StopKeepsInv(s);
    case Reset => ResetKeepsInv(s);
    case Press(b, result) => PressKeepsInv(s, b, result);
    case ReadFile(frames) => ReadKeepsInv(s, frames);
  }

  /** The invariant holds in every state of every run. */
  lemma {:induction false} RunKeepsInv(ss: seq<State>, acts: seq<Action>, i: nat)
    requires Run(ss, acts) && i < |ss|
    ensures Inv(ss[i])
  {
    hide Decode, Inv, Next, Enabled;
    if i == 0 {
      StartOk();
    } else {
      RunKeepsInv(ss, acts, i - 1);
      NextKeepsInv(ss[i - 1], acts[i - 1]);
    }
  }
}
