/** Rows stand in the order in which their packets arrived until a column header is pressed. */
module Arrival {
  import opened Rows
  import opened Records
  import opened Session
  import opened Protocol
  import opened Invariant
  import opened Guarantees
  import opened Replay

  /** The rows shown are those of the packets shown, in the same order. */
  ghost predicate InArrivalOrder(s: State) {
    s.main.list.vec == RowsOf(Shown(s))
  }

  /** The order of arrival is the order of the numbers. */
  lemma OrderIsIncreasing(s: State)
    requires Inv(s)
    ensures InArrivalOrder(s) <==> Increasing(s.main.list.vec)
  {
    hide Inv, Shown, RowOfDump;
    ShownRows(s);
    assert Increasing(RowsOf(Shown(s)));
    if Increasing(s.main.list.vec) {
      IncreasingUnique(s.main.list.vec, RowsOf(Shown(s)));
    }
  }

  /** The numbers shown are 0, 1, ... without gaps, in some order. */
  lemma NumbersShown(s: State, k: nat)
    requires Inv(s)
    ensures DistinctNums(s.main.list.vec)
    ensures k < |s.main.list.vec| ==> 0 <= s.main.list.vec[k].num < |s.main.list.vec|
    ensures k < |s.main.list.vec| ==> exists i :: 0 <= i < |s.main.list.vec| && s.main.list.vec[i].num == k
  {
    hide Inv, Shown, RowOfDump;
    var v, ds := s.main.list.vec, Shown(s);
    ShownRows(s);
    NumberedDistinct(ds);
    DistinctKept(RowsOf(ds), v);
    assert |v| == |multiset(v)| == |multiset(RowsOf(ds))| == |ds|;
    if k < |v| {
      RowHasPacket(v, ds, v[k]);
      PacketHasRow(v, ds, ds[k]);
      var i :| 0 <= i < |v| && v[i] == RowOfDump(ds[k]);
      assert v[i].num == k;
    }
  }

  /** A row that joins an ordered list in a reachable state has the greatest number. */
  lemma RowJoins(s: State, t: State, r: Row)
    requires Inv(s) && Inv(t) && Increasing(s.main.list.vec)
    requires t.main.list.vec == s.main.list.vec + [r]
    ensures Increasing(t.main.list.vec)
  {
    hide Inv;
    var v, w := s.main.list.vec, t.main.list.vec;
    var n := |v|;
    NumbersShown(t, n);
    assert forall i | 0 <= i < n :: v[i] == w[i] && w[i].num != w[n].num;
    if r.num < n {
      NumbersShown(s, r.num);
      assert false;
    }
    forall i, j | 0 <= i < j < |w|
      ensures w[i].num < w[j].num
    {
      if j == n {
        NumbersShown(s, i);
      }
    }
  }

  lemma FileRowsIncrease(m: Main, frames: seq<Record>)
    requires m.list.vec == []
    ensures Increasing(FileRead(m, frames).list.vec)
  {
    hide Log, RowOfDump;
    LogIsNumbered(m.num, frames);
  }

  /** Every step but the press of a column header keeps the rows in order of arrival. */
  lemma StepKeepsOrder(s: State, a: Action)
    requires Inv(s) && Enabled(s, a) && !a.Press?
    requires InArrivalOrder(s)
    ensures InArrivalOrder(Next(s, a))
  {
    hide Inv, InArrivalOrder, Log, RowsOf, Progress, Quiet;
    var t := Next(s, a);
    NextKeepsInv(s, a);
    OrderIsIncreasing(s);
    OrderIsIncreasing(t);
    if a.Deliver? && s.queue[0].UpdateMd? {
      RowJoins(s, t, s.queue[0].pkt);
    } else if a.ReadFile? {
      FileRowsIncrease(s.main, a.frames);
    } else {
      assert t.main.list.vec == s.main.list.vec || t.main.list.vec == [];
    }
  }

  /** In a run, from any state with an empty list on, rows stay in order of arrival until a column header is pressed. */
  lemma {:induction false} RunKeepsOrder(ss: seq<State>, acts: seq<Action>, k: nat, n: nat)
    requires Run(ss, acts) && k <= n < |ss|
    requires ss[k].main.list.vec == []
    requires forall i | k <= i < n :: !acts[i].Press?
    ensures InArrivalOrder(ss[n])
    decreases n
  {
    hide Inv, InArrivalOrder, Next, Enabled;
    RunKeepsInv(ss, acts, n);
    if k == n {
      OrderIsIncreasing(ss[n]);
    } else {
      RunKeepsOrder(ss, acts, k, n - 1);
      RunKeepsInv(ss, acts, n - 1);
      StepKeepsOrder(ss[n - 1], acts[n - 1]);
    }
  }

  /** A capture just started shows its rows in order of arrival for as long as no column header is pressed. */
  lemma CaptureShowsArrival(ss: seq<State>, acts: seq<Action>, k: nat, n: nat)
    requires Run(ss, acts) && k < n < |ss|
    requires acts[k].CreateThread? && acts[k].nicName != ""
    requires forall i | k < i < n :: !acts[i].Press?
    ensures ss[n].main.list.vec == RowsOf(Shown(ss[n]))
  {
    hide Inv, RowsOf, Shown, Log;
    assert ss[k + 1] == Next(ss[k], acts[k]);
    RunKeepsOrder(ss, acts, k + 1, n);
  }

  lemma AllDelivered(s: State)
    requires Inv(s) && s.worker.phase == Released
    ensures s.main.dumps == Log(0, s.worker.frames) && Shown(s) == s.main.dumps
  {
    hide Log, RowsOf;
    ReleasedHoldsLog(s);
    ShownRows(s);
    assert |RowsOf(Shown(s))| == |multiset(RowsOf(Shown(s)))| == |multiset(RowsOf(s.main.dumps))| == |s.main.dumps|;
    hide Inv, HalfDelivered;
    assert |Shown(s)| == |s.main.dumps|;
  }

  /**
   The live path ends where the file path does: when a worker that was not disturbed by a press passes its blocking
   call, both stores are, in order, those of reading its frames from a file.
   */
  lemma UndisturbedRunIsFile(ss: seq<State>, acts: seq<Action>, k: nat, n: nat, m: Main)
    requires Run(ss, acts) && k < n < |ss|
    requires acts[k].CreateThread? && acts[k].nicName != ""
    requires forall i | k < i < n :: !acts[i].Press?
    requires ss[n].worker.phase == Released && Empty(m)
    ensures var file := FileRead(m, ss[n].worker.frames);
      ss[n].main.list.vec == file.list.vec && ss[n].main.dumps == file.dumps
  {
    hide Run, Inv, RowsOf, Log, FileRead;
    CaptureShowsArrival(ss, acts, k, n);
    RunKeepsInv(ss, acts, n);
    AllDelivered(ss[n]);
    FileIntoEmpty(m, ss[n].worker.frames);
  }
}
