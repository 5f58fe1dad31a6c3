/** What the user's commands have done by any point of a run: reset, start, stop and save, and the column headers. */
module Commands {
  import opened Wrappers
  import opened Rows
  import opened Capture
  import opened Decoder
  import opened Records
  import opened Session
  import opened Protocol
  import opened Invariant
  import opened Guarantees
  import opened Replay

  // ---------- reset ----------

  /** With wk_life off a reset empties both stores and nothing else; with wk_life on it does nothing. */
  lemma ResetClears(s: State)
    ensures var t := Next(s, Reset);
      && (s.main.wkLife ==> t == s)
      && (!s.main.wkLife ==>
            && t.queue == s.queue && t.worker == s.worker
            && t.main.list.vec == [] && t.main.dumps == []
            && t.main == s.main.(list := s.main.list.(vec := []), dumps := []))
  {
  }

  /** So a reset with no worker about makes it possible to read a file. */
  lemma ResetEnablesRead(s: State, frames: seq<Record>)
    requires Quiet(s.worker.phase) && !s.main.wkLife && AllSafe(frames)
    ensures Enabled(Next(s, Reset), ReadFile(frames))
  {
    ResetClears(s);
  }

  /** Reading a file fills both stores with the log of its frames, in order, and touches nothing else. */
  lemma ReadFills(s: State, frames: seq<Record>)
    requires Inv(s) && Enabled(s, ReadFile(frames))
    ensures var t, ds := Next(s, ReadFile(frames)), Log(0, frames);
      && t.queue == s.queue && t.worker == s.worker
      && t.main == s.main.(list := s.main.list.(vec := RowsOf(ds)), dumps := ds)
  {
    hide Log, RowsOf, WorkerOk, QueueOk, StoresOk;
    var ds := Log(0, frames);
    assert [] + RowsOf(ds) == RowsOf(ds) && [] + ds == ds;
  }

  // ---------- start and stop ----------

  /** A capture is started. */
  predicate Starts(a: Action) {
    a.CreateThread? && a.nicName != ""
  }

  /** Stop has an effect only while a handle is stored. */
  predicate Stops(s: State, a: Action) {
    a.Stop? && s.main.wkPp
  }

  /** Among the first n steps the last start or effective stop was a stop. */
  ghost predicate LastWasStop(ss: seq<State>, acts: seq<Action>, n: nat)
    requires n <= |acts| < |ss|
  {
    exists i :: 0 <= i < n && Stops(ss[i], acts[i]) && forall j | i < j < n :: !Starts(acts[j])
  }

  lemma LastWasStopStep(ss: seq<State>, acts: seq<Action>, n: nat)
    requires n < |acts| < |ss|
    ensures LastWasStop(ss, acts, n + 1) <==>
      Stops(ss[n], acts[n]) || (LastWasStop(ss, acts, n) && !Starts(acts[n]))
  {
    hide Stops, Starts;
    if LastWasStop(ss, acts, n + 1) && !Stops(ss[n], acts[n]) {
      var i :| 0 <= i < n + 1 && Stops(ss[i], acts[i]) && forall j | i < j < n + 1 :: !Starts(acts[j]);
      assert i < n;
      assert !Starts(acts[n]);
    }
  }

  lemma StopFlagStep(s: State, a: Action)
    requires Enabled(s, a)
    ensures Next(s, a).main.stopFlag <==> Stops(s, a) || (s.main.stopFlag && !Starts(a))
  {
    hide Log, RowsOf;
  }

  /** In every run, stop_flag is on exactly when the last start or effective stop was a stop. */
  lemma {:induction false} StopFlagLaw(ss: seq<State>, acts: seq<Action>, n: nat)
    requires Run(ss, acts) && n < |ss|
    ensures ss[n].main.stopFlag <==> LastWasStop(ss, acts, n)
  {
    hide Next, Enabled, Stops, Starts;
    if n == 0 {
    } else {
      StopFlagLaw(ss, acts, n - 1);
      StopFlagStep(ss[n - 1], acts[n - 1]);
      LastWasStopStep(ss, acts, n - 1);
    }
  }

  /** A save writes exactly the stored packets when there are any and the last start or effective stop was a stop. */
  lemma SaveAfterStop(ss: seq<State>, acts: seq<Action>, n: nat)
    requires Run(ss, acts) && n < |ss|
    ensures Stored(ss[n].main.dumps)
    ensures Written(ss[n].main)
         == if ss[n].main.dumps != [] && LastWasStop(ss, acts, n) then Some(RecordsOf(ss[n].main.dumps)) else None
  {
    hide Run, Inv, LastWasStop, RecordsOf, HalfDelivered;
    StopFlagLaw(ss, acts, n);
    RunKeepsInv(ss, acts, n);
    RowsMatchDumps(ss[n]);
    CompleteIsStored(ss[n].main.dumps);
  }

  // ---------- the running flag ----------

  /** The call that reports a failed open is delivered. */
  predicate ReportsFailure(s: State, a: Action) {
    a.Deliver? && s.queue != [] && s.queue[0] == SetWkFlag(false)
  }

  /** Among the first n steps a start was not followed by an effective stop or the report of a failed open. */
  ghost predicate StillRunning(ss: seq<State>, acts: seq<Action>, n: nat)
    requires n <= |acts| < |ss|
  {
    exists i :: 0 <= i < n && Starts(acts[i])
      && forall j | i < j < n :: !Stops(ss[j], acts[j]) && !ReportsFailure(ss[j], acts[j])
  }

  lemma StillRunningStep(ss: seq<State>, acts: seq<Action>, n: nat)
    requires n < |acts| < |ss|
    ensures StillRunning(ss, acts, n + 1) <==>
      || Starts(acts[n])
      || (StillRunning(ss, acts, n) && !Stops(ss[n], acts[n]) && !ReportsFailure(ss[n], acts[n]))
  {
    hide Stops, Starts, ReportsFailure;
    if StillRunning(ss, acts, n + 1) && !Starts(acts[n]) {
      var i :| 0 <= i < n + 1 && Starts(acts[i])
        && forall j | i < j < n + 1 :: !Stops(ss[j], acts[j]) && !ReportsFailure(ss[j], acts[j]);
      assert i < n;
      assert !Stops(ss[n], acts[n]) && !ReportsFailure(ss[n], acts[n]);
    }
  }

  /** No queued call turns wk_flag on. */
  lemma NextCallKeepsFlagOff(s: State)
    requires Inv(s) && s.queue != []
    ensures s.queue[0] != SetWkFlag(true)
  {
    hide Log, AllPosts, Rest, StoresOk, FlagsOk, WorkerOk, PacketPosts, Delivered;
    if |s.queue| > |AllPosts(s.worker)| {
      LeftoverQueue(s);
    } else if !Announced(s.worker.phase) {
      NextFlag(s);
    } else {
      DeliverPost(s);
    }
  }

  lemma WkFlagStep(s: State, a: Action)
    requires Inv(s) && Enabled(s, a)
    ensures Next(s, a).main.wkFlag <==>
      Starts(a) || (s.main.wkFlag && !Stops(s, a) && !ReportsFailure(s, a))
  {
    hide Log, RowsOf, Inv;
    if a.Deliver? {
      NextCallKeepsFlagOff(s);
    }
  }

  /** In every run, wk_flag is on exactly from a start to the next effective stop or report of a failed open. */
  lemma {:induction false} WkFlagLaw(ss: seq<State>, acts: seq<Action>, n: nat)
    requires Run(ss, acts) && n < |ss|
    ensures ss[n].main.wkFlag <==> StillRunning(ss, acts, n)
  {
    hide Next, Enabled, Stops, Starts, ReportsFailure, Inv;
    if n == 0 {
    } else {
      WkFlagLaw(ss, acts, n - 1);
      RunKeepsInv(ss, acts, n - 1);
      WkFlagStep(ss[n - 1], acts[n - 1]);
      StillRunningStep(ss, acts, n - 1);
    }
  }

  /** wk_flag is off, or the report of the failed open is still queued. */
  ghost predicate FlagFalls(s: State) {
    s.worker.phase == Failed && s.main.wkFlag ==> SetWkFlag(false) in s.queue
  }

  lemma FlagFallsStep(s: State, a: Action)
    requires Inv(s) && Enabled(s, a) && FlagFalls(s)
    ensures FlagFalls(Next(s, a))
  {
    hide Log, RowsOf, Inv;
    if a.Deliver? {
      NextCallKeepsFlagOff(s);
      assert s.queue == [s.queue[0]] + s.queue[1..];
    }
  }

  lemma {:induction false} FlagFallsAlways(ss: seq<State>, acts: seq<Action>, n: nat)
    requires Run(ss, acts) && n < |ss|
    ensures FlagFalls(ss[n])
  {
    hide Next, Enabled, Inv;
    if n == 0 {
    } else {
      FlagFallsAlways(ss, acts, n - 1);
      RunKeepsInv(ss, acts, n - 1);
      hide FlagFalls;
      FlagFallsStep(ss[n - 1], acts[n - 1]);
    }
  }

  /** Once the calls of a failed open are delivered, wk_flag and wk_life are off. */
  lemma FailedOpenEnds(ss: seq<State>, acts: seq<Action>, n: nat)
    requires Run(ss, acts) && n < |ss|
    requires ss[n].worker.phase == Failed && ss[n].queue == []
    ensures !ss[n].main.wkFlag && !ss[n].main.wkLife
  {
    hide Run, Inv;
    RunKeepsInv(ss, acts, n);
    FlagFallsAlways(ss, acts, n);
    DrainedIsIdle(ss[n]);
  }

  // ---------- the column headers ----------

  /** How often a column header was pressed. */
  function HeaderPresses(acts: seq<Action>, b: Button): nat {
    if acts == [] then 0
    else
      var a := acts[|acts| - 1];
      HeaderPresses(acts[..|acts| - 1], b) + if a.Press? && a.button == b then 1 else 0
  }

  /** What the toggles of a fresh list are after so many presses of their headers. */
  ghost predicate TogglesAre(l: List, nums: nat, srcs: nat, dsts: nat, protos: nat, lens: nat) {
    && l.numFlag == (nums % 2 == 1) && l.srcFlag == (srcs % 2 == 1) && l.dstFlag == (dsts % 2 == 1)
    && l.lenFlag == (lens % 2 == 1) && l.protoNum == protos % 3
  }

  /** One more press of b. */
  function Plus(n: nat, pressed: bool): nat {
    if pressed then n + 1 else n
  }

  lemma PressTurns(l: List, b: Button, m: List, nums: nat, srcs: nat, dsts: nat, protos: nat, lens: nat)
    requires Pressed(l, b, m) && TogglesAre(l, nums, srcs, dsts, protos, lens)
    ensures TogglesAre(m, Plus(nums, b == NumHeader), Plus(srcs, b == SrcHeader), Plus(dsts, b == DstHeader),
                       Plus(protos, b == ProtoHeader), Plus(lens, b == LenHeader))
  {
    hide AllComparable, SortedBy;
  }

  /** The two lists differ at most in their rows. */
  predicate SameToggles(l: List, m: List) {
    && m.numFlag == l.numFlag && m.srcFlag == l.srcFlag && m.dstFlag == l.dstFlag && m.lenFlag == l.lenFlag
    && m.protoNum == l.protoNum
  }

  lemma CallTurnsNothing(m: Main, e: Event)
    ensures SameToggles(m.list, Handle(m, e).list)
  {
  }

  lemma CommandTurnsNothing(m: Main, frames: seq<Record>)
    ensures SameToggles(m.list, Created(m).list) && SameToggles(m.list, Stopped(m).list)
    ensures SameToggles(m.list, WhenReset(m).list) && SameToggles(m.list, FileRead(m, frames).list)
  {
    hide Log, RowsOf;
  }

  /** Only the press of a header touches the toggles. */
  lemma OnlyPressTurns(s: State, a: Action)
    requires Enabled(s, a)
    ensures if a.Press? then Pressed(s.main.list, a.button, Next(s, a).main.list)
            else SameToggles(s.main.list, Next(s, a).main.list)
  {
    hide Log, Pressed, Handle, Created, Stopped, WhenReset, FileRead, Quiet, Safe, AllSafe;
    if a.Deliver? {
      CallTurnsNothing(s.main, s.queue[0]);
    }
    CommandTurnsNothing(s.main, if a.ReadFile? then a.frames else []);
  }

  /** The toggles are those of a fresh list after the presses of a run so far. */
  ghost predicate TogglesAfter(l: List, past: seq<Action>) {
    TogglesAre(l, HeaderPresses(past, NumHeader), HeaderPresses(past, SrcHeader), HeaderPresses(past, DstHeader),
               HeaderPresses(past, ProtoHeader), HeaderPresses(past, LenHeader))
  }

  lemma HeaderPressesStep(past: seq<Action>, a: Action, b: Button)
    ensures HeaderPresses(past + [a], b) == Plus(HeaderPresses(past, b), a.Press? && a.button == b)
  {
    assert (past + [a])[..|past|] == past;
  }

  lemma TogglesStep(s: State, a: Action, past: seq<Action>)
    requires Enabled(s, a) && TogglesAfter(s.main.list, past)
    ensures TogglesAfter(Next(s, a).main.list, past + [a])
  {
    OnlyPressTurns(s, a);
    hide Next, Enabled, Pressed, HeaderPresses;
    HeaderPressesStep(past, a, NumHeader);
    HeaderPressesStep(past, a, SrcHeader);
    HeaderPressesStep(past, a, DstHeader);
    HeaderPressesStep(past, a, ProtoHeader);
    HeaderPressesStep(past, a, LenHeader);
    if a.Press? {
      hide TogglesAre;
      PressTurns(s.main.list, a.button, Next(s, a).main.list,
                 HeaderPresses(past, NumHeader), HeaderPresses(past, SrcHeader), HeaderPresses(past, DstHeader),
                 HeaderPresses(past, ProtoHeader), HeaderPresses(past, LenHeader));
    }
  }

  lemma {:induction false} TogglesFollowPresses(ss: seq<State>, acts: seq<Action>, n: nat)
    requires Run(ss, acts) && n < |ss|
    ensures TogglesAfter(ss[n].main.list, acts[..n])
  {
    hide Next, Enabled;
    if n == 0 {
    } else {
      TogglesFollowPresses(ss, acts, n - 1);
      hide TogglesAfter;
      TogglesStep(ss[n - 1], acts[n - 1], acts[..n - 1]);
      assert acts[..n] == acts[..n - 1] + [acts[n - 1]];
    }
  }

  /** In every run each toggle is on after an odd number of presses of its own header, whatever else was done. */
  lemma TogglesLaw(ss: seq<State>, acts: seq<Action>, n: nat)
    requires Run(ss, acts) && n < |ss|
    ensures var l, past := ss[n].main.list, acts[..n];
      && l.numFlag == (HeaderPresses(past, NumHeader) % 2 == 1)
      && l.srcFlag == (HeaderPresses(past, SrcHeader) % 2 == 1)
      && l.dstFlag == (HeaderPresses(past, DstHeader) % 2 == 1)
      && l.lenFlag == (HeaderPresses(past, LenHeader) % 2 == 1)
      && l.protoNum == HeaderPresses(past, ProtoHeader) % 3
  {
    hide Run, HeaderPresses;
    TogglesFollowPresses(ss, acts, n);
  }

  lemma RowNamesProtocol(d: Dump)
    requires Complete(d)
    ensures RowOfDump(d).proto in {"TCP", "UDP", "ICMP"}
  {
    AcceptedFrame(d.data);
    hide Decode;
  }

  /** Every row of every reachable state names one of the three protocols. */
  lemma RowsNameProtocols(s: State)
    requires Inv(s)
    ensures NamesProtocols(s.main.list.vec)
  {
    hide Decode, Inv, Shown, Complete;
    var v, ds := s.main.list.vec, Shown(s);
    ShownRows(s);
    forall r | r in v
      ensures r.proto in {"TCP", "UDP", "ICMP"}
    {
      RowHasPacket(v, ds, r);
      RowNamesProtocol(ds[r.num]);
    }
  }

  /** A press of the protocol header in any reachable state shows the three blocks of the new line-up. */
  lemma ProtoHeaderLinesUp(s: State, m: List, i: nat)
    requires Inv(s) && Pressed(s.main.list, ProtoHeader, m) && i < |m.vec|
    ensures |LINEUPS| == 3 && m.protoNum < 3 && |LINEUPS[m.protoNum]| == 3
    ensures m.protoNum == (s.main.list.protoNum + 1) % 3
    ensures var lineup, v := LINEUPS[m.protoNum], s.main.list.vec;
      var a, b, c := Count(v, Names(lineup[0])), Count(v, Names(lineup[1])), Count(v, Names(lineup[2]));
      && m.vec[i].proto == lineup[if i < a then 0 else if i < a + b then 1 else 2]
      && |m.vec| == a + b + c
  {
    hide Pressed, NamesProtocols, WorkerOk, QueueOk, StoresOk;
    RowsNameProtocols(s);
    ProtoPressLineup(s.main.list, m, i);
  }
}
