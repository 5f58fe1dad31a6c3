/**
 The session as a concurrent state machine: the worker's posts, the main thread's
 deliveries and the user's commands in any interleaving, with one live worker at a time.
 */
module Protocol {
  import opened Capture
  import opened Records
  import opened Session

  /** The worker's own state, and the frames its loop has handed over so far. */
  datatype WorkerState = WorkerState(phase: Phase, num: nat, frames: seq<Record>)

  datatype State = State(main: Main, queue: seq<Event>, worker: WorkerState)

  const START := State(INITIAL, [], WorkerState(Absent, 0, []))

  datatype Action =
    // the worker thread
    | Open(ok: bool)
    | GiveUp
    | AnnounceLife
    | BeginPacket(record: Record)
    | EndPacket
    | LeaveLoop
    | Finish
    // the main thread
    | Deliver
    | CreateThread(nicName: string)
    | Stop
    | Reset
    | Press(button: Button, result: List)
    | ReadFile(frames: seq<Record>)

  /** No worker, or one that has posted everything it will ever post. */
  predicate Quiet(phase: Phase) {
    phase in {Absent, Failed, Finished}
  }

  /** The packets the worker has accepted, in order. */
  function Progress(w: WorkerState): seq<Dump> {
    Log(0, w.frames)
  }

  ghost predicate Enabled(s: State, a: Action) {
    match a
    case Open(_) => s.worker.phase == Starting
    case GiveUp => s.worker.phase == Failing
    case AnnounceLife => s.worker.phase == Opened
    case BeginPacket(r) => s.worker.phase == Looping && Safe(r)
    case EndPacket => s.worker.phase == Handling && Progress(s.worker) != []
    case LeaveLoop => s.worker.phase == Looping
    case Finish => s.worker.phase == Released
    case Deliver => s.queue != []
    case CreateThread(nicName) => nicName == "" || Quiet(s.worker.phase)
    case Stop => true
    case Reset => true
    case Press(b, result) => Pressed(s.main.list, b, result)
    case ReadFile(frames) =>
      Quiet(s.worker.phase) && s.main.list.vec == [] && s.main.dumps == [] && AllSafe(frames)
  }

  // ---------- the steps of the worker thread ----------

  function Posting(s: State, es: seq<Event>, w: WorkerState): State {
    State(s.main, s.queue + es, w)
  }

  function Opening(s: State, ok: bool): State {
    if ok then Posting(s, [SetWkPp(true)], s.worker.(phase := Opened))
    else Posting(s, [SetWkLife(false)], s.worker.(phase := Failing))
  }

  function GivingUp(s: State): State {
    Posting(s, [SetWkFlag(false)], s.worker.(phase := Failed))
  }

  function Announcing(s: State): State {
    Posting(s, [SetWkLife(true)], s.worker.(phase := Looping))
  }

  /** A rejected frame posts nothing; an accepted one posts its row first. */
  function Beginning(s: State, r: Record): State {
    var w := s.worker;
    if Accepts(r)
    then Posting(s, [UpdateMd(RowOfDump(DumpOf(w.num, r)))], WorkerState(Handling, w.num + 1, w.frames + [r]))
    else Posting(s, [], w.(frames := w.frames + [r]))
  }

  function Ending(s: State): State
    requires Progress(s.worker) != []
  {
    var ds := Progress(s.worker);
    Posting(s, [DumpPushBack(ds[|ds| - 1])], s.worker.(phase := Looping))
  }

  function Leaving(s: State): State {
    Posting(s, [ClearWkPp], s.worker.(phase := Blocked))
  }

  function Finishing(s: State): State {
    Posting(s, [SetWkLife(false)], s.worker.(phase := Finished))
  }

  // ---------- the steps of the main thread ----------

  /** Delivering the blocking call also releases the worker that waits for it. */
  function Delivering(s: State): State
    requires s.queue != []
  {
    State(Handle(s.main, s.queue[0]), s.queue[1..],
          if s.queue[0] == ClearWkPp then s.worker.(phase := Released) else s.worker)
  }

  function Creating(s: State, nicName: string): State {
    if nicName == "" then s else State(Created(s.main), s.queue, WorkerState(Starting, 0, []))
  }

  function Commanding(s: State, m: Main): State {
    s.(main := m)
  }

  ghost function Next(s: State, a: Action): State
    requires Enabled(s, a)
  {
    match a
    case Open(ok) => Opening(s, ok)
    case GiveUp => GivingUp(s)
    case AnnounceLife => Announcing(s)
    case BeginPacket(r) => Beginning(s, r)
    case EndPacket => Ending(s)
    case LeaveLoop => Leaving(s)
    case Finish => Finishing(s)
    case Deliver => Delivering(s)
    case CreateThread(nicName) => Creating(s, nicName)
    case Stop => Commanding(s, Stopped(s.main))
    case Reset => Commanding(s, WhenReset(s.main))
    case Press(_, result) => Commanding(s, s.main.(list := result))
    case ReadFile(frames) => Commanding(s, FileRead(s.main, frames))
  }

  /** A run: states connected by enabled actions, from the start. */
  ghost predicate Run(ss: seq<State>, acts: seq<Action>) {
    && |ss| == |acts| + 1
    && ss[0] == START
    && forall i | 0 <= i < |acts| :: Enabled(ss[i], acts[i]) && ss[i + 1] == Next(ss[i], acts[i])
  }

  // ---------- the queue as the rest of what was posted ----------

  /** Calls that earlier, finished workers may have left in the queue. */
  predicate Leftover(e: Event) {
    e == SetWkLife(false) || e == SetWkFlag(false)
  }

  /** q is what remains of the posts p, possibly behind leftovers of earlier workers. */
  ghost predicate Rest(q: seq<Event>, p: seq<Event>) {
    if |q| <= |p| then q == p[|p| - |q|..]
    else q[|q| - |p|..] == p && forall i | 0 <= i < |q| - |p| :: Leftover(q[i])
  }

  /** How many of the posts p are delivered already. */
  function Delivered(q: seq<Event>, p: seq<Event>): nat {
    if |q| <= |p| then |p| - |q| else 0
  }

  lemma RestPost(q: seq<Event>, p: seq<Event>, es: seq<Event>)
    requires Rest(q, p)
    ensures Rest(q + es, p + es) && Delivered(q + es, p + es) == Delivered(q, p)
  {
    var q', p' := q + es, p + es;
    if |q| <= |p| {
      assert q' == p'[|p'| - |q'|..];
    } else {
      assert q'[|q'| - |p'|..] == p';
      assert forall i | 0 <= i < |q'| - |p'| :: q'[i] == q[i];
    }
  }

  lemma RestDeliver(q: seq<Event>, p: seq<Event>)
    requires Rest(q, p) && q != []
    ensures Rest(q[1..], p)
    ensures |q| > |p| ==> Leftover(q[0]) && Delivered(q[1..], p) == 0
    ensures |q| <= |p| ==> q[0] == p[Delivered(q, p)] && Delivered(q[1..], p) == Delivered(q, p) + 1
  {
    if |q| <= |p| {
      assert q[1..] == p[|p| - |q[1..]|..];
    } else {
      assert q[1..][|q[1..]| - |p|..] == p;
      assert forall i | 0 <= i < |q[1..]| - |p| :: q[1..][i] == q[i + 1];
    }
  }

  // ---------- what wk_life will be when the queue has drained ----------

  function LifeAfter(life: bool, q: seq<Event>): bool {
    if q == [] then life
    else match q[|q| - 1]
      case SetWkLife(on) => on
      case _ => LifeAfter(life, q[..|q| - 1])
  }

  lemma {:induction false} LifeAfterDeliver(m: Main, q: seq<Event>)
    requires q != []
    ensures LifeAfter(m.wkLife, q) == LifeAfter(Handle(m, q[0]).wkLife, q[1..])
  {
    var n := |q| - 1;
    if n > 0 {
      assert q[1..][|q[1..]| - 1] == q[n];
      assert q[..n][1..] == q[1..][..|q[1..]| - 1];
      LifeAfterDeliver(m, q[..n]);
      assert q[..n][0] == q[0];
    } else {
      assert q[..0] == [];
    }
  }

  lemma {:induction false} LifeUnchanged(life: bool, q: seq<Event>)
    requires forall i | 0 <= i < |q| :: !q[i].SetWkLife?
    ensures LifeAfter(life, q) == life
  {
    if q == [] {
    } else {
      LifeUnchanged(life, q[..|q| - 1]);
    }
  }

  lemma LifeAfterPost(life: bool, q: seq<Event>, e: Event)
    ensures LifeAfter(life, q + [e]) == if e.SetWkLife? then e.on else LifeAfter(life, q)
  {
    assert (q + [e])[..|q|] == q;
  }

  // ---------- positions in what was posted ----------

  lemma {:induction false} EventAt(ds: seq<Dump>, i: nat)
    requires i < 2 * |ds|
    ensures EventsOf(ds)[i]
         == if i % 2 == 0 then UpdateMd(RowOfDump(ds[i / 2])) else DumpPushBack(ds[i / 2])
  {
    if i >= 2 * (|ds| - 1) {
    } else {
      EventAt(ds[..|ds| - 1], i);
    }
  }

  /** Phases in which the loop has been announced. */
  predicate Announced(phase: Phase) {
    phase in {Looping, Handling, Blocked, Released}
  }

  /** How many packet calls have been posted. */
  function PacketPosts(w: WorkerState): (n: nat)
    ensures n <= 2 * |Progress(w)|
  {
    var n := 2 * |Progress(w)|;
    if w.phase == Handling && n > 0 then n - 1 else n
  }

  function AllPosts(w: WorkerState): seq<Event> {
    if w.phase == Handling && Progress(w) == [] then [] else Posted(w.phase, Progress(w))
  }

  lemma PostsShape(w: WorkerState)
    requires Announced(w.phase) && (w.phase == Handling ==> Progress(w) != [])
    ensures AllPosts(w) == [SetWkPp(true), SetWkLife(true)] + EventsOf(Progress(w))[..PacketPosts(w)]
      + if w.phase in {Blocked, Released} then [ClearWkPp] else []
  {
    var es := EventsOf(Progress(w));
    if w.phase == Handling || w.phase == Looping {
      var p := [SetWkPp(true), SetWkLife(true)] + es[..PacketPosts(w)];
      assert p + [] == p;
      assert w.phase == Looping ==> es[..PacketPosts(w)] == es;
    } else {
      assert es[..PacketPosts(w)] == es;
    }
  }

  function PostCount(w: WorkerState): nat {
    2 + PacketPosts(w) + if w.phase in {Blocked, Released} then 1 else 0
  }

  /** The i-th packet call of a worker. */
  function PacketPost(w: WorkerState, i: nat): Event
    requires i < PacketPosts(w)
  {
    var d := Progress(w)[i / 2];
    if i % 2 == 0 then UpdateMd(RowOfDump(d)) else DumpPushBack(d)
  }

  /** The k-th post of an announced worker. */
  function ExpectedPost(w: WorkerState, k: nat): Event {
    if k == 0 then SetWkPp(true)
    else if k == 1 then SetWkLife(true)
    else if k < 2 + PacketPosts(w) then PacketPost(w, k - 2)
    else ClearWkPp
  }

  lemma ThreeParts(x: Event, y: Event, b: seq<Event>, c: seq<Event>, k: nat)
    requires k < |[x, y] + b + c|
    ensures ([x, y] + b + c)[k]
         == if k == 0 then x else if k == 1 then y else if k < 2 + |b| then b[k - 2] else c[k - 2 - |b|]
  {
  }

  lemma PacketPostAt(w: WorkerState, i: nat)
    requires i < PacketPosts(w)
    ensures EventsOf(Progress(w))[i] == PacketPost(w, i)
  {
    hide Log, EventsOf, PacketPosts, RowOfDump;
    EventAt(Progress(w), i);
  }

  lemma PostCountIs(w: WorkerState)
    requires Announced(w.phase) && (w.phase == Handling ==> Progress(w) != [])
    ensures |AllPosts(w)| == PostCount(w)
  {
    PostsShape(w);
    hide AllPosts, Log, EventsOf, PacketPosts;
  }

  lemma PostAt(w: WorkerState, k: nat)
    requires Announced(w.phase) && (w.phase == Handling ==> Progress(w) != [])
    ensures |AllPosts(w)| == PostCount(w)
    ensures k < PostCount(w) ==> AllPosts(w)[k] == ExpectedPost(w, k)
  {
    hide AllPosts, Log, EventsOf, PacketPosts, PacketPost;
    PostCountIs(w);
    if k < PostCount(w) {
      PostsShape(w);
      var body := EventsOf(Progress(w))[..PacketPosts(w)];
      var tail := if w.phase in {Blocked, Released} then [ClearWkPp] else [];
      ThreeParts(SetWkPp(true), SetWkLife(true), body, tail, k);
      if 2 <= k < 2 + PacketPosts(w) {
        PacketPostAt(w, k - 2);
      }
    }
  }

  // ---------- the invariant ----------

  /** How many packet calls of the current worker are delivered. */
  function PacketsDelivered(s: State): nat {
    var c := Delivered(s.queue, AllPosts(s.worker));
    if c <= 2 then 0 else if c - 2 < PacketPosts(s.worker) then c - 2 else PacketPosts(s.worker)
  }

  ghost predicate WorkerOk(w: WorkerState) {
    && AllSafe(w.frames)
    && w.num == |Progress(w)|
    && (w.phase == Handling ==> Progress(w) != [])
    && (w.phase in {Absent, Starting, Failing, Failed, Opened} ==> w.frames == [])
  }

  ghost predicate QueueOk(s: State) {
    && Rest(s.queue, AllPosts(s.worker))
    && (s.worker.phase == Blocked ==> s.queue != [])
    && (s.worker.phase == Released ==> s.queue == [])
    && (s.worker.phase == Finished ==> |s.queue| <= 1)
  }

  ghost predicate FlagsOk(s: State) {
    && s.main.num == 0 && ValidList(s.main.list)
    && LifeAfter(s.main.wkLife, s.queue) == Announced(s.worker.phase)
    && (s.main.wkPp <==>
        s.worker.phase in {Opened, Looping, Handling, Blocked} && Delivered(s.queue, AllPosts(s.worker)) > 0)
  }

  /** The packets whose bytes, and the packets whose rows, the current worker's delivered calls make. */
  function DumpsDue(s: State): seq<Dump> {
    Progress(s.worker)[..PacketsDelivered(s) / 2]
  }

  function RowsDue(s: State): seq<Dump> {
    Progress(s.worker)[..(PacketsDelivered(s) + 1) / 2]
  }

  ghost predicate StoresOk(s: State) {
    if Quiet(s.worker.phase) then
      && AllComplete(s.main.dumps) && NumberedFrom(s.main.dumps, 0)
      && multiset(s.main.list.vec) == multiset(RowsOf(s.main.dumps))
    else
      && s.main.dumps == DumpsDue(s)
      && multiset(s.main.list.vec) == multiset(RowsOf(RowsDue(s)))
  }

  ghost predicate Inv(s: State) {
    WorkerOk(s.worker) && QueueOk(s) && FlagsOk(s) && StoresOk(s)
  }
}
