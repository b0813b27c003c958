/** Safety of the dispatch runtime: in every interleaving the reference counts are exact, so no
    thread touches a dead packet or work entry and every object is freed exactly once; queues are
    FIFO and complete; no wake-up is lost. */
module DispatchSafety {
  import opened Aoe
  import opened Common
  import opened Dispatch

  /* ---- Who holds a reference ---- */

  function Names(w: Work, r: Ref): nat
  {
    if r == W(w) || r == P(w.pkt) then 1 else 0
  }

  function HoldQueue(q: seq<Work>, r: Ref): nat
  {
    if q == [] then 0 else Names(q[0], r) + HoldQueue(q[1..], r)
  }

  function HoldRole(role: Role, r: Ref): nat
  {
    match role
    case Listener(own, _) => if own.Some? && r == P(own.value) then 1 else 0
    case Worker(_, _, queue, _, _) => HoldQueue(queue, r)
  }

  function HoldAct(act: Activity, r: Ref): nat
  {
    match act
    case Inspect(p, _) => if r == P(p) then 1 else 0
    case Fan(w, todo, stage) =>
      if r == W(w) then (if todo != [] && stage != BumpWork then 2 else 1)
      else if r == P(w.pkt) then (if todo != [] && stage == Enqueue then 2 else 1)
      else 0
    case Got(w, _) => Names(w, r)
    case Release(w, d, _) =>
      if r == W(w) then 1
      else if r == P(w.pkt) && (d.ReadRaw? || d.DropPacket?) then 1
      else 0
    case _ => 0
  }

  /** The references of a thread that it has not yet dropped. */
  function Hold(t: Thread, r: Ref): nat
  {
    HoldRole(t.role, r) + HoldAct(t.act, r)
  }

  function Total(ts: seq<Thread>, r: Ref): nat
  {
    if ts == [] then 0 else Hold(ts[0], r) + Total(ts[1..], r)
  }

  lemma {:induction false} TotalUpdate(ts: seq<Thread>, i: nat, t: Thread, r: Ref)
    requires i < |ts|
    ensures Total(ts[i := t], r) == Total(ts, r) - Hold(ts[i], r) + Hold(t, r)
    ensures Total(ts, r) >= Hold(ts[i], r)
  {
    if i == 0 {
      assert ts[i := t][1..] == ts[1..];
    } else {
      assert ts[i := t][1..] == ts[1..][i - 1 := t];
      TotalUpdate(ts[1..], i - 1, t, r);
    }
  }

  lemma {:induction false} TotalAppend(ts: seq<Thread>, t: Thread, r: Ref)
    ensures Total(ts + [t], r) == Total(ts, r) + Hold(t, r)
  {
    if ts == [] {
      assert ts + [t] == [t];
    } else {
      assert (ts + [t])[1..] == ts[1..] + [t];
      TotalAppend(ts[1..], t, r);
    }
  }

  lemma {:induction false} HoldQueueAppend(q: seq<Work>, w: Work, r: Ref)
    ensures HoldQueue(q + [w], r) == HoldQueue(q, r) + Names(w, r)
  {
    if q == [] {
      assert q + [w] == [w];
    } else {
      assert (q + [w])[1..] == q[1..] + [w];
      HoldQueueAppend(q[1..], w, r);
    }
  }

  /* ---- The invariant ---- */

  /** Every refcount equals the number of references not yet dropped; a dead object has none. */
  ghost predicate Counted(ts: seq<Thread>, h: Heap)
  {
    forall r: Ref :: Count(h, r) == Total(ts, r)
  }

  function Count(h: Heap, r: Ref): int
  {
    if r in h.count then h.count[r] else 0
  }

  ghost predicate Positive(h: Heap)
  {
    forall r :: r in h.count ==> h.count[r] >= 1
  }

  /** Whatever was allocated is either live or was freed, exactly once. */
  ghost predicate Accounted(h: Heap)
  {
    && (forall r :: r in h.born <==> r in h.count || r in h.freed)
    && (forall r :: r in h.count ==> r !in h.freed)
    && (forall r :: h.freed[r] <= 1)
    && (forall p: nat :: P(p) in h.born ==> p < h.nextPacket)
    && (forall w :: W(w) in h.born ==> w.id < h.nextWork && w.pkt < h.nextPacket)
  }

  /** rawbuf is cleared only after its packet is dead. */
  ghost predicate RawOK(h: Heap)
  {
    forall w :: W(w) in h.count ==>
      && w in h.raw
      && (h.raw[w] == Some(w.pkt) || (h.raw[w] == None && P(w.pkt) !in h.count))
  }

  ghost predicate DropOK(h: Heap, w: Work, d: DropStage)
  {
    match d
    case DropPacket(p) => p == w.pkt
    case ClearRaw => P(w.pkt) !in h.count && w.pkt < h.nextPacket
    case _ => true
  }

  ghost predicate ListenerOK(ts: seq<Thread>, h: Heap, i: nat, role: Role, act: Activity)
    requires role.Listener?
  {
    && (role.own.None? ==> role.rest == [])
    && match act
       case Idle => role.own.None?
       case Walk => role.own.Some?
       case Inspect(_, _) => true
       case Fan(w, todo, _) => w.ifentry == i && forall d :: d in todo ==> d < |ts| && ts[d].role.Worker?
       case Release(w, d, next) => w.ifentry == i && next == AfterFrame(role.own) && DropOK(h, w, d)
       case _ => false
  }

  /** The entry that the worker took from its queue and has not yet processed. */
  function InHand(act: Activity): seq<Work>
  {
    if act.Got? && act.next.Ready? then [act.w] else []
  }

  ghost predicate WorkerOK(h: Heap, role: Role, act: Activity)
    requires role.Worker?
  {
    && role.dispatched == role.processed + InHand(act) + role.queue
    && match act
       case Start(_) => true
       case Ready => true
       case Waiting => role.queue == []
       case Woken => role.queue != []
       case Got(_, next) => next.Ready? || next.Start?
       case Release(w, d, next) => (next.Ready? || next.Start?) && DropOK(h, w, d)
       case _ => false
  }

  ghost predicate ThreadOK(ts: seq<Thread>, h: Heap, i: nat)
    requires i < |ts|
  {
    if ts[i].role.Listener? then ListenerOK(ts, h, i, ts[i].role, ts[i].act)
    else WorkerOK(h, ts[i].role, ts[i].act)
  }

  ghost predicate ThreadsOK(ts: seq<Thread>, h: Heap)
  {
    forall i :: 0 <= i < |ts| ==> ThreadOK(ts, h, i)
  }

  /** The queue insertions that the dispatcher of `w` has still to make on thread `d`. */
  function Pending(ts: seq<Thread>, w: Work, d: nat): nat
    requires w.ifentry < |ts|
  {
    var act := ts[w.ifentry].act;
    if act.Fan? && act.w == w then multiset(act.todo)[d] else 0
  }

  ghost predicate PlanHead(ts: seq<Thread>, w: Work)
  {
    w.ifentry < |ts| && w.seen <= |ts| && w.plan == Plan(ts[..w.seen], w.frame)
  }

  ghost predicate Balanced(ts: seq<Thread>, w: Work, d: nat)
    requires w.ifentry < |ts|
  {
    d < |ts| && ts[d].role.Worker? ==>
      multiset(ts[d].role.dispatched)[w] + Pending(ts, w, d) == multiset(w.plan)[d]
  }

  ghost predicate PlanOK(ts: seq<Thread>, w: Work)
  {
    PlanHead(ts, w) && forall d: nat :: Balanced(ts, w, d)
  }

  /** What was queued so far, plus what is pending, is what the two loops have to queue. */
  ghost predicate Planned(ts: seq<Thread>, h: Heap)
  {
    && (forall w :: W(w) in h.born ==> PlanOK(ts, w))
    && forall d, w :: 0 <= d < |ts| && ts[d].role.Worker? && w in ts[d].role.dispatched ==> W(w) in h.born
  }

  ghost predicate HeapOK(h: Heap)
  {
    !h.fault && Positive(h) && Accounted(h) && RawOK(h)
  }

  ghost predicate Inv(s: State)
  {
    && HeapOK(s.heap)
    && Counted(s.threads, s.heap)
    && ThreadsOK(s.threads, s.heap)
    && Planned(s.threads, s.heap)
  }

  /* ---- How one thread's step preserves the parts ---- */

  lemma CountedStep(ts: seq<Thread>, h: Heap, i: nat, t: Thread, h': Heap)
    requires Counted(ts, h) && i < |ts|
    requires forall r :: Count(h', r) - Count(h, r) == Hold(t, r) - Hold(ts[i], r)
    ensures Counted(ts[i := t], h')
  {
    forall r ensures Count(h', r) == Total(ts[i := t], r) {
      TotalUpdate(ts, i, t, r);
    }
  }

  /** Everything that a thread holds is live. */
  ghost predicate HoldsLive(h: Heap, t: Thread)
  {
    forall r :: Hold(t, r) > 0 ==> r in h.count
  }

  lemma HeldIsLive(ts: seq<Thread>, h: Heap, i: nat)
    requires Counted(ts, h) && i < |ts|
    ensures HoldsLive(h, ts[i])
  {
    forall r | Hold(ts[i], r) > 0 ensures r in h.count {
      TotalUpdate(ts, i, ts[i], r);
      assert Count(h, r) == Total(ts, r);
    }
  }

  /** Packets that are dead stay dead. */
  ghost predicate HeapStep(h: Heap, h': Heap)
  {
    && h.nextPacket <= h'.nextPacket
    && forall p: nat :: p < h.nextPacket && P(p) in h'.count ==> P(p) in h.count
  }

  lemma ThreadsStep(ts: seq<Thread>, h: Heap, i: nat, t: Thread, h': Heap)
    requires ThreadsOK(ts, h) && i < |ts| && HeapStep(h, h')
    requires t.role.Worker? == ts[i].role.Worker?
    requires ThreadOK(ts[i := t], h', i)
    ensures ThreadsOK(ts[i := t], h')
  {
    var ts' := ts[i := t];
    forall j | 0 <= j < |ts'| ensures ThreadOK(ts', h', j) {
      assert ThreadOK(ts, h, j);
    }
  }

  ghost predicate SameAddress(t: Thread, t': Thread)
  {
    && t.role.Worker? == t'.role.Worker?
    && (t.role.Worker? ==> t.role.shelf == t'.role.shelf && t.role.slot == t'.role.slot)
  }

  lemma {:induction false} PlanStable(ts: seq<Thread>, ts': seq<Thread>, f: Frame)
    requires |ts| == |ts'|
    requires forall i :: 0 <= i < |ts| ==> SameAddress(ts[i], ts'[i])
    ensures Matching(ts, f) == Matching(ts', f) && Workers(ts) == Workers(ts')
    ensures Plan(ts, f) == Plan(ts', f)
  {
    if ts != [] {
      var n := |ts| - 1;
      PlanStable(ts[..n], ts'[..n], f);
      assert SameAddress(ts[n], ts'[n]);
    }
  }

  ghost predicate SameHistory(t: Thread, t': Thread)
  {
    SameAddress(t, t') && (t.role.Worker? ==> t.role.dispatched == t'.role.dispatched)
  }

  /** The step neither starts a dispatch loop nor leaves one early. */
  ghost predicate SameFan(act: Activity, act': Activity)
  {
    && (act'.Fan? ==> act.Fan? && act'.w == act.w && act'.todo == act.todo)
    && (act.Fan? ==> act'.Fan? || act.todo == [])
  }

  lemma PlanHeadStable(ts: seq<Thread>, ts': seq<Thread>, w: Work)
    requires PlanHead(ts, w) && |ts| == |ts'|
    requires forall i :: 0 <= i < |ts| ==> SameAddress(ts[i], ts'[i])
    ensures PlanHead(ts', w)
  {
    PlanStable(ts[..w.seen], ts'[..w.seen], w.frame);
  }

  lemma BalancedStep(ts: seq<Thread>, i: nat, t: Thread, w: Work, d: nat)
    requires w.ifentry < |ts| && Balanced(ts, w, d)
    requires i < |ts| && SameHistory(ts[i], t) && SameFan(ts[i].act, t.act)
    ensures Balanced(ts[i := t], w, d)
  {
  }

  lemma PlanOKStep(ts: seq<Thread>, i: nat, t: Thread, w: Work)
    requires PlanOK(ts, w) && i < |ts| && SameHistory(ts[i], t) && SameFan(ts[i].act, t.act)
    ensures PlanOK(ts[i := t], w)
  {
    PlanHeadStable(ts, ts[i := t], w);
    var ts' := ts[i := t];
    forall d: nat ensures Balanced(ts', w, d) {
      BalancedStep(ts, i, t, w, d);
    }
  }

  /** A step that queues nothing. */
  lemma PlannedStep(ts: seq<Thread>, h: Heap, i: nat, t: Thread, h': Heap)
    requires Planned(ts, h) && i < |ts| && SameHistory(ts[i], t) && SameFan(ts[i].act, t.act)
    requires h'.born == h.born
    ensures Planned(ts[i := t], h')
  {
    var ts' := ts[i := t];
    forall w | W(w) in h'.born ensures PlanOK(ts', w) {
      PlanOKStep(ts, i, t, w);
    }
    forall d, w | 0 <= d < |ts'| && ts'[d].role.Worker? && w in ts'[d].role.dispatched
      ensures W(w) in h'.born
    {
      assert w in ts[d].role.dispatched;
    }
  }

  /* ---- How the heap operations behave on live objects ---- */

  lemma UpStep(h: Heap, r: Ref)
    requires r in h.count && HeapOK(h)
    ensures var h' := Up(h, r);
            && HeapOK(h') && HeapStep(h, h') && h'.born == h.born
            && forall x :: Count(h', x) == Count(h, x) + if x == r then 1 else 0
  {
  }

  lemma DownStep(h: Heap, r: Ref)
    requires r in h.count && HeapOK(h)
    ensures var h' := Down(h, r);
            && HeapOK(h') && HeapStep(h, h') && h'.born == h.born && h'.nextPacket == h.nextPacket
            && forall x :: Count(h', x) == Count(h, x) - if x == r then 1 else 0
  {
    var h' := Down(h, r);
    forall x ensures h'.freed[x] <= 1 && (x in h'.freed <==> x in h.freed || (x == r && r !in h'.count)) {
      assert r !in h.freed;
    }
  }

  lemma NewPacketStep(h: Heap)
    requires HeapOK(h)
    ensures var h' := NewPacket(h);
            && HeapOK(h') && HeapStep(h, h') && h'.born == h.born + {P(h.nextPacket)}
            && forall x :: Count(h', x) == Count(h, x) + if x == P(h.nextPacket) then 1 else 0
  {
    assert P(h.nextPacket) !in h.born;
    assert forall w :: W(w) in h.count ==> W(w) in h.born;
  }

  lemma NewWorkStep(h: Heap, w: Work)
    requires HeapOK(h) && w.id == h.nextWork && w.pkt < h.nextPacket
    ensures var h' := NewWork(h, w);
            && HeapOK(h') && HeapStep(h, h') && h'.born == h.born + {W(w)} && W(w) !in h.born
            && forall x :: Count(h', x) == Count(h, x) + if x == W(w) then 1 else 0
  {
    assert W(w) !in h.born;
  }

  lemma ClearRawStep(h: Heap, w: Work)
    requires HeapOK(h) && P(w.pkt) !in h.count
    ensures var h' := h.(raw := h.raw[w := None]);
            && HeapOK(h') && HeapStep(h, h')
            && forall x :: Count(h', x) == Count(h, x)
  {
  }
}
