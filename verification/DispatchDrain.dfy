/** Drain: without new input, every schedule of the threads' steps ends, and it ends with empty
    queues, every dispatched request processed and no packet or work entry left. */
module DispatchDrain {
  import opened Aoe
  import opened Dispatch
  import opened DispatchSafety
  import opened DispatchRuns
  import opened DispatchTheorems

  /** The thread can take a step. Idle listeners wait for a packet, waiting workers for a signal. */
  predicate Enabled(t: Thread)
  {
    if t.role.Listener? then !t.act.Idle? else !t.act.Waiting? && !t.act.Stale?
  }

  /* ---- The measure; `n` is the number of threads ---- */

  function DropWeight(d: DropStage): nat
  {
    match d
    case ReadRaw => 4
    case DropPacket(_) => 3
    case ClearRaw => 2
    case DropWork => 1
  }

  function ActWeight(n: nat, act: Activity): nat
  {
    match act
    case Idle => 0
    case Waiting => 0
    case Stale => 0
    case Walk => 1
    case Ready => 1
    case Woken => 1
    case Start(k) => 6 * k + 2
    case Inspect(_, _) => 20 * n + 9
    case Fan(_, todo, stage) =>
      10 * |todo| + 6 + (match stage case BumpWork => 2 case BumpPacket => 1 case Enqueue => 0)
    case Got(_, next) => 5 + ActWeight(n, next)
    case Release(_, d, next) => DropWeight(d) + ActWeight(n, next)
  }

  function RestWeight(n: nat, rest: seq<Frame>): nat
  {
    if rest == [] then 0 else 20 * n + 10 + RestWeight(n, rest[1..])
  }

  function Weight(n: nat, t: Thread): nat
  {
    ActWeight(n, t.act) +
    match t.role
    case Listener(_, rest) => RestWeight(n, rest)
    case Worker(_, _, queue, _, _) => 6 * |queue|
  }

  function SumWeight(n: nat, ts: seq<Thread>): nat
  {
    if ts == [] then 0 else Weight(n, ts[0]) + SumWeight(n, ts[1..])
  }

  function Measure(s: State): nat
  {
    SumWeight(|s.threads|, s.threads)
  }

  lemma {:induction false} SumWeightUpdate(n: nat, ts: seq<Thread>, i: nat, t: Thread)
    requires i < |ts|
    ensures SumWeight(n, ts[i := t]) == SumWeight(n, ts) - Weight(n, ts[i]) + Weight(n, t)
  {
    if i == 0 {
      assert ts[i := t][1..] == ts[1..];
    } else {
      assert ts[i := t][1..] == ts[1..][i - 1 := t];
      SumWeightUpdate(n, ts[1..], i - 1, t);
    }
  }

  lemma ReleaseDecreases(n: nat, h: Heap, w: Work, d: DropStage, next: Activity)
    ensures ActWeight(n, ReleaseTick(h, w, d, next).1) < ActWeight(n, Release(w, d, next))
  {
  }

  /** Thread `i` alone changed, to something lighter. */
  ghost predicate Lighter(s: State, i: nat, s': State)
    requires i < |s.threads|
  {
    && |s'.threads| == |s.threads|
    && s'.threads == s.threads[i := s'.threads[i]]
    && Weight(|s.threads|, s'.threads[i]) < Weight(|s.threads|, s.threads[i])
  }

  lemma FanDecreases(s: State, i: nat)
    requires Inv(s) && i < |s.threads| && s.threads[i].role.Listener? && s.threads[i].act.Fan?
    requires s.threads[i].act.todo == [] || !s.threads[i].act.stage.Enqueue?
    ensures Lighter(s, i, Tick(s, i))
  {
    InvLocal(s, i);
    var n, t := |s.threads|, s.threads[i];
    if t.act.todo == [] {
      assert ActWeight(n, AfterFrame(t.role.own)) <= 1;
    } else if t.act.stage.BumpPacket? {
      BumpPacketMoves(s.threads, s.heap, i);
    }
  }

  lemma ListenerDecreases(s: State, i: nat)
    requires Inv(s) && i < |s.threads| && s.threads[i].role.Listener? && Enabled(s.threads[i])
    requires !s.threads[i].act.Fan?
    ensures Lighter(s, i, Tick(s, i))
  {
    var t := s.threads[i];
    assert ThreadOK(s.threads, s.heap, i);
    match t.act {
      case Walk =>
      case Inspect(_, f) =>
        PlanIsWorkers(s.threads, f);
        assert ActWeight(|s.threads|, AfterFrame(t.role.own)) <= 1;
      case Release(w, d, next) =>
        ReleaseDecreases(|s.threads|, s.heap, w, d, next);
      case _ =>
    }
  }

  lemma WorkerDecreases(s: State, i: nat)
    requires Inv(s) && i < |s.threads| && s.threads[i].role.Worker? && Enabled(s.threads[i])
    ensures Lighter(s, i, Tick(s, i))
  {
    var n, t := |s.threads|, s.threads[i];
    assert ThreadOK(s.threads, s.heap, i);
    match t.act {
      case Start(k) =>
        assert k > 0 ==> ActWeight(n, Start(k - 1)) == 6 * k - 4;
      case Ready =>
        assert ActWeight(n, Ready) == 1;
      case Woken =>
        assert ActWeight(n, Ready) == 1;
      case Got(_, _) =>
      case Release(w, d, next) =>
        ReleaseDecreases(n, s.heap, w, d, next);
      case _ =>
    }
  }

  lemma EnqueueDecreases(s: State, i: nat)
    requires Inv(s) && i < |s.threads| && s.threads[i].role.Listener?
    requires s.threads[i].act.Fan? && s.threads[i].act.todo != [] && s.threads[i].act.stage.Enqueue?
    ensures |Tick(s, i).threads| == |s.threads| && Measure(Tick(s, i)) < Measure(s)
  {
    var ts, n := s.threads, |s.threads|;
    InvLocal(s, i);
    var w, todo := ts[i].act.w, ts[i].act.todo;
    var d := todo[0];
    assert d in todo;
    var t := ts[i].(act := Fan(w, todo[1..], BumpWork));
    assert Tick(s, i).threads == ts[i := t][d := Insert(ts[d], w)];
    SumWeightUpdate(n, ts, i, t);
    SumWeightUpdate(n, ts[i := t], d, Insert(ts[d], w));
  }

  /** Every step of a thread decreases the measure. */
  lemma TickDecreases(s: State, i: nat)
    requires Inv(s) && i < |s.threads| && Enabled(s.threads[i])
    ensures |Tick(s, i).threads| == |s.threads| && Measure(Tick(s, i)) < Measure(s)
  {
    var act := s.threads[i].act;
    if s.threads[i].role.Listener? && act.Fan? && act.todo != [] && act.stage.Enqueue? {
      EnqueueDecreases(s, i);
    } else {
      if s.threads[i].role.Listener? && act.Fan? {
        FanDecreases(s, i);
      } else if s.threads[i].role.Listener? {
        ListenerDecreases(s, i);
      } else {
        WorkerDecreases(s, i);
      }
      SumWeightUpdate(|s.threads|, s.threads, i, Tick(s, i).threads[i]);
    }
  }

  /* ---- Schedules without new input ---- */

  ghost predicate Schedule(s: State, sched: seq<nat>)
    decreases |sched|
  {
    sched != [] ==>
      && sched[0] < |s.threads|
      && Enabled(s.threads[sched[0]])
      && Schedule(Tick(s, sched[0]), sched[1..])
  }

  ghost function After(s: State, sched: seq<nat>): State
    requires Schedule(s, sched)
    decreases |sched|
  {
    if sched == [] then s else After(Tick(s, sched[0]), sched[1..])
  }

  /** No schedule is longer than the measure of the state that it starts in. */
  lemma {:induction false} DrainTerminates(s: State, sched: seq<nat>)
    requires Inv(s) && Schedule(s, sched)
    ensures Inv(After(s, sched)) && |sched| + Measure(After(s, sched)) <= Measure(s)
    decreases |sched|
  {
    if sched != [] {
      TickInv(s, sched[0]);
      TickDecreases(s, sched[0]);
      DrainTerminates(Tick(s, sched[0]), sched[1..]);
    }
  }

  ghost predicate Quiet(s: State)
  {
    forall i :: 0 <= i < |s.threads| ==> !Enabled(s.threads[i])
  }

  /** Nothing is left over: no live object, every allocated one freed once, queues empty and every
      dispatched request processed. */
  ghost predicate Drained(s: State)
  {
    && s.heap.count == map[]
    && (forall r :: r in s.heap.born ==> s.heap.freed[r] == 1)
    && forall d :: 0 <= d < |s.threads| && s.threads[d].role.Worker? ==>
         s.threads[d].role.queue == [] && s.threads[d].role.processed == s.threads[d].role.dispatched
  }

  lemma {:induction false} NothingHeld(ts: seq<Thread>, r: Ref)
    requires forall i :: 0 <= i < |ts| ==> Hold(ts[i], r) == 0
    ensures Total(ts, r) == 0
  {
    if ts != [] {
      assert Hold(ts[0], r) == 0;
      NothingHeld(ts[1..], r);
    }
  }

  /** A state in which no thread can move is drained. */
  lemma QuietIsDrained(s: State)
    requires Inv(s) && Quiet(s)
    ensures Drained(s)
  {
    forall i | 0 <= i < |s.threads|
      ensures forall r :: Hold(s.threads[i], r) == 0
      ensures s.threads[i].role.Worker? ==>
                s.threads[i].role.queue == [] && s.threads[i].role.processed == s.threads[i].role.dispatched
    {
      assert ThreadOK(s.threads, s.heap, i);
      assert !Enabled(s.threads[i]);
    }
    forall r ensures r !in s.heap.count {
      assert Count(s.heap, r) == Total(s.threads, r);
      NothingHeld(s.threads, r);
    }
  }

  /** From every reachable state, whatever step is scheduled as long as some thread can move, the
      run without new input stops within the measure, and where it stops the state is drained. */
  lemma Drain(s: State, sched: seq<nat>)
    requires Reachable(s) && Schedule(s, sched)
    ensures |sched| <= Measure(s)
    ensures Quiet(After(s, sched)) ==> Drained(After(s, sched))
    ensures !Quiet(After(s, sched)) ==> exists i :: Schedule(s, sched + [i])
  {
    ReachableInv(s);
    DrainTerminates(s, sched);
    var s' := After(s, sched);
    if Quiet(s') {
      QuietIsDrained(s');
    } else {
      var i :| 0 <= i < |s'.threads| && Enabled(s'.threads[i]);
      ScheduleMore(s, sched, i);
    }
  }

  lemma {:induction false} ScheduleMore(s: State, sched: seq<nat>, i: nat)
    requires Schedule(s, sched)
    requires i < |After(s, sched).threads| && Enabled(After(s, sched).threads[i])
    ensures Schedule(s, sched + [i])
    decreases |sched|
  {
    if sched == [] {
      assert [i][1..] == [];
    } else {
      ScheduleMore(Tick(s, sched[0]), sched[1..], i);
      assert (sched + [i])[1..] == sched[1..] + [i];
    }
  }
}
