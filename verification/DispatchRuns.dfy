/** Every step of every thread keeps the dispatch invariant, hence every run does. */
module DispatchRuns {
  import opened Aoe
  import opened Common
  import opened Dispatch
  import opened DispatchSafety

  /** A step of thread `i` to `t`, heap `h'`, that queues nothing and allocates nothing. */
  ghost predicate Moves(ts: seq<Thread>, h: Heap, i: nat, t: Thread, h': Heap)
    requires i < |ts|
  {
    && HeapOK(h') && HeapStep(h, h') && h'.born == h.born
    && (forall r :: Count(h', r) - Count(h, r) == Hold(t, r) - Hold(ts[i], r))
    && SameHistory(ts[i], t)
    && SameFan(ts[i].act, t.act)
    && ThreadOK(ts[i := t], h', i)
  }

  lemma MovesInv(s: State, i: nat, t: Thread, h: Heap)
    requires Inv(s) && i < |s.threads| && Moves(s.threads, s.heap, i, t, h)
    ensures Inv(SetThread(s, i, t, h))
  {
    CountedStep(s.threads, s.heap, i, t, h);
    ThreadsStep(s.threads, s.heap, i, t, h);
    PlannedStep(s.threads, s.heap, i, t, h);
  }

  /** What a thread can rely on: its own part of the invariant. */
  ghost predicate Local(ts: seq<Thread>, h: Heap, i: nat)
  {
    i < |ts| && HeapOK(h) && ThreadOK(ts, h, i) && HoldsLive(h, ts[i])
  }

  lemma InvLocal(s: State, i: nat)
    requires Inv(s) && i < |s.threads|
    ensures Local(s.threads, s.heap, i)
  {
    HeldIsLive(s.threads, s.heap, i);
  }

  /* ---- qaoed_workdestroy ---- */

  predicate Resting(a: Activity)
  {
    a.Idle? || a.Walk? || a.Ready? || a.Start?
  }

  ghost predicate ReleaseOK(h: Heap, w: Work, d: DropStage, next: Activity, h': Heap, a: Activity)
  {
    && HeapOK(h') && HeapStep(h, h') && h'.born == h.born
    && (forall r :: Count(h', r) - Count(h, r) == HoldAct(a, r) - HoldAct(Release(w, d, next), r))
    && (a == next || (a.Release? && a.w == w && a.next == next && DropOK(h', w, a.drop)))
  }

  lemma DropPacketStep(h: Heap, w: Work, next: Activity)
    requires HeapOK(h) && Resting(next) && P(w.pkt) in h.count
    ensures var (h', a) := ReleaseTick(h, w, DropPacket(w.pkt), next);
            ReleaseOK(h, w, DropPacket(w.pkt), next, h', a)
  {
    assert P(w.pkt) in h.born;
    DownStep(h, P(w.pkt));
  }

  lemma DropWorkStep(h: Heap, w: Work, next: Activity)
    requires HeapOK(h) && Resting(next) && W(w) in h.count
    ensures var (h', a) := ReleaseTick(h, w, DropWork, next); ReleaseOK(h, w, DropWork, next, h', a)
  {
    DownStep(h, W(w));
  }

  /** One step of qaoed_workdestroy. rawbuf is set whenever a thread is about to drop the packet. */
  lemma ReleaseStep(h: Heap, w: Work, d: DropStage, next: Activity)
    requires HeapOK(h) && DropOK(h, w, d) && Resting(next) && W(w) in h.count
    requires d.ReadRaw? || d.DropPacket? ==> P(w.pkt) in h.count
    ensures var (h', a) := ReleaseTick(h, w, d, next); ReleaseOK(h, w, d, next, h', a)
    ensures d.ReadRaw? ==> ReleaseTick(h, w, d, next).1 == Release(w, DropPacket(w.pkt), next)
  {
    match d {
      case ReadRaw =>
      case DropPacket(p) =>
        DropPacketStep(h, w, next);
      case ClearRaw =>
        ClearRawStep(h, w);
      case DropWork =>
        DropWorkStep(h, w, next);
    }
  }

  lemma ReleasedThreadOK(ts: seq<Thread>, h: Heap, i: nat, h': Heap, a: Activity)
    requires i < |ts| && ThreadOK(ts, h, i) && ts[i].act.Release?
    requires a == ts[i].act.next
          || (a.Release? && a.w == ts[i].act.w && a.next == ts[i].act.next && DropOK(h', a.w, a.drop))
    ensures ThreadOK(ts[i := ts[i].(act := a)], h', i)
  {
    var t := ts[i].(act := a);
    if ts[i].role.Listener? {
      assert ListenerOK(ts[i := t], h', i, t.role, a);
    } else {
      assert WorkerOK(h', t.role, a);
    }
  }

  /** An activity change that ReleaseOK describes is a move of the thread. */
  lemma ReleaseOKMoves(ts: seq<Thread>, h: Heap, i: nat, h': Heap, a: Activity)
    requires i < |ts| && ThreadOK(ts, h, i) && ts[i].act.Release?
    requires ReleaseOK(h, ts[i].act.w, ts[i].act.drop, ts[i].act.next, h', a)
    ensures Moves(ts, h, i, ts[i].(act := a), h')
  {
    var t := ts[i].(act := a);
    forall r ensures Count(h', r) - Count(h, r) == Hold(t, r) - Hold(ts[i], r) {
      assert Count(h', r) - Count(h, r) == HoldAct(a, r) - HoldAct(ts[i].act, r);
    }
    ReleasedThreadOK(ts, h, i, h', a);
  }

  lemma ReleaseMoves(ts: seq<Thread>, h: Heap, i: nat)
    requires Local(ts, h, i) && ts[i].act.Release?
    ensures var (h', a) := ReleaseTick(h, ts[i].act.w, ts[i].act.drop, ts[i].act.next);
            Moves(ts, h, i, ts[i].(act := a), h')
  {
    var w, d := ts[i].act.w, ts[i].act.drop;
    assert W(w) in h.count by {
      assert Hold(ts[i], W(w)) > 0;
    }
    assert d.ReadRaw? || d.DropPacket? ==> P(w.pkt) in h.count by {
      assert d.ReadRaw? || d.DropPacket? ==> Hold(ts[i], P(w.pkt)) > 0;
    }
    ReleaseStep(h, w, d, ts[i].act.next);
    var (h', a) := ReleaseTick(h, w, d, ts[i].act.next);
    ReleaseOKMoves(ts, h, i, h', a);
  }

  /* ---- Listener steps ---- */

  lemma WalkMoves(ts: seq<Thread>, h: Heap, i: nat)
    requires Local(ts, h, i) && ts[i].role.Listener? && ts[i].act.Walk?
    ensures ts[i].role.own.Some?
    ensures var r := P(ts[i].role.own.value);
            if ts[i].role.rest == [] then Moves(ts, h, i, Thread(Listener(None, []), Idle), Down(h, r))
            else Moves(ts, h, i, Thread(Listener(ts[i].role.own, ts[i].role.rest[1..]),
                                        Inspect(r.p, ts[i].role.rest[0])), Up(h, r))
  {
    var r := P(ts[i].role.own.value);
    assert Hold(ts[i], r) > 0;
    if ts[i].role.rest == [] {
      DownStep(h, r);
    } else {
      UpStep(h, r);
    }
  }

  lemma RejectMoves(ts: seq<Thread>, h: Heap, i: nat)
    requires Local(ts, h, i) && ts[i].role.Listener? && ts[i].act.Inspect?
    ensures Moves(ts, h, i, ts[i].(act := AfterFrame(ts[i].role.own)), Down(h, P(ts[i].act.p)))
  {
    assert Hold(ts[i], P(ts[i].act.p)) > 0;
    DownStep(h, P(ts[i].act.p));
  }

  lemma LeaveFanMoves(ts: seq<Thread>, h: Heap, i: nat)
    requires Local(ts, h, i) && ts[i].role.Listener? && ts[i].act.Fan? && ts[i].act.todo == []
    ensures Moves(ts, h, i, ts[i].(act := Release(ts[i].act.w, ReadRaw, AfterFrame(ts[i].role.own))), h)
  {
  }

  lemma BumpWorkMoves(ts: seq<Thread>, h: Heap, i: nat)
    requires Local(ts, h, i) && ts[i].role.Listener? && ts[i].act.Fan?
    requires ts[i].act.todo != [] && ts[i].act.stage.BumpWork?
    ensures Moves(ts, h, i, ts[i].(act := Fan(ts[i].act.w, ts[i].act.todo, BumpPacket)), Up(h, W(ts[i].act.w)))
  {
    assert Hold(ts[i], W(ts[i].act.w)) > 0;
    UpStep(h, W(ts[i].act.w));
  }

  lemma BumpPacketMoves(ts: seq<Thread>, h: Heap, i: nat)
    requires Local(ts, h, i) && ts[i].role.Listener? && ts[i].act.Fan?
    requires ts[i].act.todo != [] && ts[i].act.stage.BumpPacket?
    ensures var w := ts[i].act.w;
            && W(w) in h.count && w in h.raw && h.raw[w] == Some(w.pkt)
            && Moves(ts, h, i, ts[i].(act := Fan(w, ts[i].act.todo, Enqueue)), Up(h, P(w.pkt)))
  {
    var w := ts[i].act.w;
    assert Hold(ts[i], W(w)) > 0;
    assert Hold(ts[i], P(w.pkt)) > 0;
    UpStep(h, P(w.pkt));
  }

  /* ---- Worker steps ---- */

  lemma ProcessMoves(ts: seq<Thread>, h: Heap, i: nat)
    requires Local(ts, h, i) && ts[i].role.Worker? && ts[i].act.Got?
    ensures var t, w := ts[i], ts[i].act.w;
            var role := if t.act.next.Ready? then t.role.(processed := t.role.processed + [w]) else t.role;
            && W(w) in h.count && P(w.pkt) in h.count
            && Moves(ts, h, i, Thread(role, Release(w, ReadRaw, t.act.next)), h)
  {
    var w := ts[i].act.w;
    assert Hold(ts[i], W(w)) > 0;
    assert Hold(ts[i], P(w.pkt)) > 0;
  }

  lemma TakeMoves(ts: seq<Thread>, h: Heap, i: nat)
    requires Local(ts, h, i) && ts[i].role.Worker? && ts[i].role.queue != []
    requires ts[i].act.Ready? || ts[i].act.Woken?
    ensures Moves(ts, h, i, Dequeue(ts[i]), h)
  {
    var q := ts[i].role.queue;
    assert q == [q[0]] + q[1..];
  }

  lemma SleepMoves(ts: seq<Thread>, h: Heap, i: nat)
    requires Local(ts, h, i) && ts[i].role.Worker? && ts[i].role.queue == [] && ts[i].act.Ready?
    ensures Moves(ts, h, i, ts[i].(act := Waiting), h)
  {
  }

  lemma StartedMoves(ts: seq<Thread>, h: Heap, i: nat)
    requires Local(ts, h, i) && ts[i].role.Worker? && ts[i].act == Start(0)
    ensures Moves(ts, h, i, ts[i].(act := Ready), h)
  {
  }

  /** Every step of a thread that allocates nothing and queues nothing. */
  predicate Plain(s: State, i: nat)
    requires i < |s.threads|
  {
    var act := s.threads[i].act;
    && !(act.Inspect? && Accepts(s.host, act.f))
    && !(act.Start? && act.adverts > 0)
    && !(act.Fan? && act.todo != [] && act.stage.Enqueue?)
  }

  lemma ListenerPlainInv(s: State, i: nat)
    requires Inv(s) && i < |s.threads| && Plain(s, i) && s.threads[i].role.Listener?
    ensures Inv(Tick(s, i))
  {
    InvLocal(s, i);
    var ts, h, t := s.threads, s.heap, s.threads[i];
    match t.act {
      case Walk =>
        WalkMoves(ts, h, i);
        var r := P(t.role.own.value);
        if t.role.rest == [] {
          MovesInv(s, i, Thread(Listener(None, []), Idle), Down(h, r));
        } else {
          MovesInv(s, i, Thread(Listener(t.role.own, t.role.rest[1..]), Inspect(r.p, t.role.rest[0])), Up(h, r));
        }
      case Inspect(p, _) =>
        RejectMoves(ts, h, i);
        MovesInv(s, i, t.(act := AfterFrame(t.role.own)), Down(h, P(p)));
      case Fan(w, todo, stage) =>
        if todo == [] {
          LeaveFanMoves(ts, h, i);
          MovesInv(s, i, t.(act := Release(w, ReadRaw, AfterFrame(t.role.own))), h);
        } else if stage.BumpWork? {
          BumpWorkMoves(ts, h, i);
          MovesInv(s, i, t.(act := Fan(w, todo, BumpPacket)), Up(h, W(w)));
        } else {
          BumpPacketMoves(ts, h, i);
          MovesInv(s, i, t.(act := Fan(w, todo, Enqueue)), Up(h, P(w.pkt)));
        }
      case Release(w, d, next) =>
        ReleaseMoves(ts, h, i);
        var (h', a) := ReleaseTick(h, w, d, next);
        MovesInv(s, i, t.(act := a), h');
      case _ =>
    }
  }

  lemma WorkerPlainInv(s: State, i: nat)
    requires Inv(s) && i < |s.threads| && Plain(s, i) && s.threads[i].role.Worker?
    ensures Inv(Tick(s, i))
  {
    InvLocal(s, i);
    var ts, h, t := s.threads, s.heap, s.threads[i];
    match t.act {
      case Start(_) =>
        StartedMoves(ts, h, i);
        MovesInv(s, i, t.(act := Ready), h);
      case Ready =>
        if t.role.queue == [] {
          SleepMoves(ts, h, i);
          MovesInv(s, i, t.(act := Waiting), h);
        } else {
          TakeMoves(ts, h, i);
          MovesInv(s, i, Dequeue(t), h);
        }
      case Woken =>
        TakeMoves(ts, h, i);
        MovesInv(s, i, Dequeue(t), h);
      case Got(_, _) =>
        ProcessMoves(ts, h, i);
        MovesInv(s, i, Tick(s, i).threads[i], h);
      case Release(w, d, next) =>
        ReleaseMoves(ts, h, i);
        var (h', a) := ReleaseTick(h, w, d, next);
        MovesInv(s, i, t.(act := a), h');
      case _ =>
    }
  }

  /* ---- Allocation ---- */

  lemma {:induction false} PlanIsWorkers(ts: seq<Thread>, f: Frame)
    ensures forall d :: d in Matching(ts, f) ==> d < |ts| && ts[d].role.Worker?
    ensures forall d :: d in Workers(ts) ==> d < |ts| && ts[d].role.Worker?
    ensures |Matching(ts, f)| <= |ts| && |Workers(ts)| <= |ts|
  {
    if ts != [] {
      PlanIsWorkers(ts[..|ts| - 1], f);
    }
  }

  /** The step of thread `i` to `t` creates the work entry `w`, and nothing else changes in what is
      queued or pending. */
  ghost predicate Creates(ts: seq<Thread>, i: nat, t: Thread, w: Work)
  {
    && i < |ts| && SameHistory(ts[i], t) && !ts[i].act.Fan?
    && w.ifentry == i && w.seen <= |ts| && w.plan == Plan(ts[..w.seen], w.frame)
    && if t.act.Fan? then t.act.w == w && t.act.todo == w.plan else w.plan == []
  }

  lemma CreatedPlan(ts: seq<Thread>, i: nat, t: Thread, w: Work)
    requires Creates(ts, i, t, w)
    requires forall d :: 0 <= d < |ts| && ts[d].role.Worker? ==> w !in ts[d].role.dispatched
    ensures PlanOK(ts[i := t], w)
  {
    PlanHeadStable(ts, ts[i := t], w);
    var ts' := ts[i := t];
    forall d: nat ensures Balanced(ts', w, d) {
      assert d < |ts| && ts[d].role.Worker? ==> ts[i := t][d].role.dispatched == ts[d].role.dispatched;
    }
  }

  lemma OtherBalanced(ts: seq<Thread>, i: nat, t: Thread, w: Work, v: Work, d: nat)
    requires Creates(ts, i, t, w) && v.ifentry < |ts| && Balanced(ts, v, d) && v != w
    ensures Balanced(ts[i := t], v, d)
  {
    assert Pending(ts[i := t], v, d) == Pending(ts, v, d);
  }

  lemma OtherPlan(ts: seq<Thread>, i: nat, t: Thread, w: Work, v: Work)
    requires Creates(ts, i, t, w) && PlanOK(ts, v) && v != w
    ensures PlanOK(ts[i := t], v)
  {
    PlanHeadStable(ts, ts[i := t], v);
    var ts' := ts[i := t];
    forall d: nat ensures Balanced(ts', v, d) {
      OtherBalanced(ts, i, t, w, v, d);
    }
  }

  lemma CreatedPlanned(ts: seq<Thread>, h: Heap, i: nat, t: Thread, h': Heap, w: Work)
    requires Planned(ts, h) && Creates(ts, i, t, w)
    requires W(w) !in h.born && forall v :: W(v) in h'.born <==> W(v) in h.born || v == w
    ensures Planned(ts[i := t], h')
  {
    var ts' := ts[i := t];
    forall d, v | 0 <= d < |ts'| && ts'[d].role.Worker? && v in ts'[d].role.dispatched
      ensures W(v) in h'.born
    {
      assert v in ts[d].role.dispatched;
    }
    forall v | W(v) in h'.born ensures PlanOK(ts', v) {
      if v == w {
        CreatedPlan(ts, i, t, w);
      } else {
        OtherPlan(ts, i, t, w, v);
      }
    }
  }

  /** An accepted frame gets its work entry, which takes over the frame's reference. */
  lemma AcceptInv(s: State, i: nat)
    requires Inv(s) && i < |s.threads| && s.threads[i].role.Listener? && s.threads[i].act.Inspect?
    requires Accepts(s.host, s.threads[i].act.f)
    ensures Inv(Tick(s, i))
  {
    var ts, h, t := s.threads, s.heap, s.threads[i];
    InvLocal(s, i);
    var p, f := t.act.p, t.act.f;
    var w := Work(h.nextWork, p, f, i, |ts|, Plan(ts, f));
    var t', h' := t.(act := Fan(w, w.plan, BumpWork)), NewWork(h, w);
    assert P(p) in h.born by {
      assert Hold(t, P(p)) > 0;
    }
    NewWorkStep(h, w);
    CountedStep(ts, h, i, t', h');
    PlanIsWorkers(ts, f);
    ThreadsStep(ts, h, i, t', h');
    assert ts[..|ts|] == ts;
    CreatedPlanned(ts, h, i, t', h', w);
  }

  lemma AdvertHeap(h: Heap, w: Work)
    requires HeapOK(h) && w.id == h.nextWork && w.pkt == h.nextPacket
    ensures var h' := NewWork(NewPacket(h), w);
            && HeapOK(h') && HeapStep(h, h') && W(w) !in h.born
            && (forall v :: W(v) in h'.born <==> W(v) in h.born || v == w)
            && forall r :: Count(h', r) == Count(h, r) + Names(w, r)
  {
    NewPacketStep(h);
    NewWorkStep(NewPacket(h), w);
  }

  /** The advertisement that a starting worker fabricates for itself. */
  lemma AdvertInv(s: State, i: nat)
    requires Inv(s) && i < |s.threads| && s.threads[i].role.Worker?
    requires s.threads[i].act.Start? && s.threads[i].act.adverts > 0
    ensures Inv(Tick(s, i))
  {
    var ts, h, t := s.threads, s.heap, s.threads[i];
    InvLocal(s, i);
    var w := Work(h.nextWork, h.nextPacket, ADVERT_FRAME, i, 0, []);
    var t', h' := t.(act := Got(w, Start(t.act.adverts - 1))), NewWork(NewPacket(h), w);
    AdvertHeap(h, w);
    CountedStep(ts, h, i, t', h');
    ThreadsStep(ts, h, i, t', h');
    assert ts[..0] == [];
    CreatedPlanned(ts, h, i, t', h', w);
  }

  lemma ReceiveInv(s: State, i: nat, frames: seq<Frame>, keep: bool)
    requires Inv(s)
    ensures Inv(Do(s, Receive(i, frames, keep)))
  {
    var ts, h := s.threads, s.heap;
    var s' := Do(s, Receive(i, frames, keep));
    if s' != s {
      InvLocal(s, i);
      NewPacketStep(h);
      CountedStep(ts, h, i, s'.threads[i], s'.heap);
      ThreadsStep(ts, h, i, s'.threads[i], s'.heap);
      PlannedStep(ts, h, i, s'.threads[i], h);
      assert forall w :: W(w) in s'.heap.born <==> W(w) in h.born;
    }
  }

  /* ---- Queueing ---- */

  /** The move of one reference from the dispatcher `i` to the queue of worker `d`. */
  ghost predicate Queues(ts: seq<Thread>, i: nat, d: nat, w: Work, todo: seq<nat>)
  {
    && i < |ts| && ts[i].role.Listener? && ts[i].act == Fan(w, todo, Enqueue) && w.ifentry == i
    && todo != [] && d == todo[0] && d < |ts| && ts[d].role.Worker?
  }

  function Queued(ts: seq<Thread>, i: nat, d: nat, w: Work, todo: seq<nat>): seq<Thread>
    requires i < |ts| && d < |ts| && ts[d].role.Worker? && todo != []
  {
    ts[i := ts[i].(act := Fan(w, todo[1..], BumpWork))][d := Insert(ts[d], w)]
  }

  lemma QueuedCounted(ts: seq<Thread>, h: Heap, i: nat, d: nat, w: Work, todo: seq<nat>)
    requires Counted(ts, h) && Queues(ts, i, d, w, todo)
    ensures Counted(Queued(ts, i, d, w, todo), h)
  {
    var t := ts[i].(act := Fan(w, todo[1..], BumpWork));
    forall r ensures Count(h, r) == Total(Queued(ts, i, d, w, todo), r) {
      TotalUpdate(ts, i, t, r);
      TotalUpdate(ts[i := t], d, Insert(ts[d], w), r);
      HoldQueueAppend(ts[d].role.queue, w, r);
    }
  }

  lemma QueuedThreads(ts: seq<Thread>, h: Heap, i: nat, d: nat, w: Work, todo: seq<nat>)
    requires ThreadsOK(ts, h) && Queues(ts, i, d, w, todo)
    ensures ThreadsOK(Queued(ts, i, d, w, todo), h)
  {
    var ts' := Queued(ts, i, d, w, todo);
    assert forall e :: e in todo[1..] ==> e in todo;
    forall j | 0 <= j < |ts'| ensures ThreadOK(ts', h, j) {
      assert ThreadOK(ts, h, j);
      if j == d {
        var r := ts[d].role;
        assert r.processed + InHand(ts[d].act) + (r.queue + [w])
            == r.processed + InHand(ts[d].act) + r.queue + [w];
      } else if j == i {
        assert ThreadOK(ts', h, i);
      }
    }
  }

  lemma QueuedBalanced(ts: seq<Thread>, i: nat, d: nat, w: Work, todo: seq<nat>, v: Work, e: nat)
    requires v.ifentry < |ts| && Balanced(ts, v, e) && Queues(ts, i, d, w, todo)
    ensures Balanced(Queued(ts, i, d, w, todo), v, e)
  {
    assert todo == [todo[0]] + todo[1..];
  }

  lemma QueuedPlanOK(ts: seq<Thread>, i: nat, d: nat, w: Work, todo: seq<nat>, v: Work)
    requires PlanOK(ts, v) && Queues(ts, i, d, w, todo)
    ensures PlanOK(Queued(ts, i, d, w, todo), v)
  {
    PlanHeadStable(ts, Queued(ts, i, d, w, todo), v);
    forall e: nat ensures Balanced(Queued(ts, i, d, w, todo), v, e) {
      QueuedBalanced(ts, i, d, w, todo, v, e);
    }
  }

  lemma EnqueueInv(s: State, i: nat)
    requires Inv(s) && i < |s.threads| && s.threads[i].role.Listener? && s.threads[i].act.Fan?
    requires s.threads[i].act.todo != [] && s.threads[i].act.stage.Enqueue?
    ensures Inv(Tick(s, i))
  {
    var ts, h := s.threads, s.heap;
    InvLocal(s, i);
    var w, todo := ts[i].act.w, ts[i].act.todo;
    var d := todo[0];
    assert d in todo;
    QueuedCounted(ts, h, i, d, w, todo);
    QueuedThreads(ts, h, i, d, w, todo);
    var ts' := Queued(ts, i, d, w, todo);
    forall v | W(v) in h.born ensures PlanOK(ts', v) {
      QueuedPlanOK(ts, i, d, w, todo, v);
    }
    assert W(w) in h.count by {
      assert Hold(ts[i], W(w)) > 0;
    }
    forall e, v | 0 <= e < |ts'| && ts'[e].role.Worker? && v in ts'[e].role.dispatched
      ensures W(v) in h.born
    {
      assert v in ts[e].role.dispatched || v == w;
    }
  }

  /* ---- New threads ---- */

  lemma AttachedPlan(ts: seq<Thread>, t: Thread, w: Work)
    requires PlanOK(ts, w) && !t.act.Fan? && (t.role.Worker? ==> t.role.dispatched == [])
    requires t.role.Listener? || forall i :: 0 <= i < |ts| ==> !ts[i].act.Fan?
    ensures PlanOK(ts + [t], w)
  {
    var ts' := ts + [t];
    assert ts'[..w.seen] == ts[..w.seen];
    PlanIsWorkers(ts[..w.seen], w.frame);
    assert |ts| !in w.plan;
    forall d: nat ensures Balanced(ts', w, d) {
      assert Balanced(ts, w, d);
    }
  }

  lemma AttachInv(s: State, t: Thread)
    requires Inv(s) && (t == Thread(Listener(None, []), Idle) || (t.role.Worker? && t.act.Start? && DeviceListFree(s)))
    requires t.role.Worker? ==> t.role.queue == [] && t.role.dispatched == [] && t.role.processed == []
    ensures Inv(s.(threads := s.threads + [t]))
  {
    var ts, h := s.threads, s.heap;
    var ts' := ts + [t];
    forall r ensures Count(h, r) == Total(ts', r) {
      TotalAppend(ts, t, r);
    }
    forall i | 0 <= i < |ts'| ensures ThreadOK(ts', h, i) {
      assert i < |ts| ==> ThreadOK(ts, h, i);
    }
    forall w | W(w) in h.born ensures PlanOK(ts', w) {
      AttachedPlan(ts, t, w);
    }
    forall d, w | 0 <= d < |ts'| && ts'[d].role.Worker? && w in ts'[d].role.dispatched
      ensures W(w) in h.born
    {
      assert d < |ts| && w in ts[d].role.dispatched;
    }
  }

  /* ---- All steps, all runs ---- */

  lemma TickInv(s: State, i: nat)
    requires Inv(s) && i < |s.threads|
    ensures Inv(Tick(s, i))
  {
    var t := s.threads[i];
    if t.role.Listener? {
      if Plain(s, i) {
        ListenerPlainInv(s, i);
      } else if t.act.Inspect? {
        AcceptInv(s, i);
      } else if t.act.Fan? {
        EnqueueInv(s, i);
      }
    } else {
      if Plain(s, i) {
        WorkerPlainInv(s, i);
      } else if t.act.Start? {
        AdvertInv(s, i);
      } else {
        InvLocal(s, i);
      }
    }
  }

  lemma StepInv(s: State, step: Step)
    requires Inv(s)
    ensures Inv(Do(s, step))
  {
    match step {
      case Receive(i, frames, keep) => ReceiveInv(s, i, frames, keep);
      case Go(i) => if i < |s.threads| { TickInv(s, i); }
      case AttachListener => AttachInv(s, Thread(Listener(None, []), Idle));
      case AttachWorker(shelf, slot, n) =>
        if DeviceListFree(s) {
          AttachInv(s, Thread(Worker(shelf, slot, [], [], []), Start(n)));
        }
    }
  }

  /** The invariant holds in every reachable state. */
  lemma {:induction false} RunInv(host: Endian, steps: seq<Step>)
    ensures Inv(Run(Init(host), steps))
  {
    if steps == [] {
    } else {
      RunInv(host, steps[..|steps| - 1]);
      StepInv(Run(Init(host), steps[..|steps| - 1]), steps[|steps| - 1]);
    }
  }
}
