/** From the wire to the queues: what becomes of the frames that a listener receives. The histories here are
    read off a run from outside; nothing in the system keeps them. */
module DispatchFlow {
  import opened Aoe
  import opened Common
  import opened Dispatch
  import opened DispatchSafety
  import opened DispatchRuns
  import opened DispatchTheorems
  import opened DispatchDrain

  /* ---- Histories of a run ---- */

  predicate IsListener(s: State, i: nat)
  {
    i < |s.threads| && s.threads[i].role.Listener?
  }

  /** A read returns only to a listener that waits for it; on Linux with a single frame that has a header. */
  predicate Takes(s: State, i: nat, frames: seq<Frame>, keep: bool)
  {
    IsListener(s, i) && s.threads[i].act.Idle? && (keep || (|frames| == 1 && frames[0].len >= 24))
  }

  /** The frames that a step gives to listener `i`. */
  function ReceivedNow(s: State, step: Step, i: nat): seq<Frame>
  {
    match step
    case Receive(j, frames, keep) => if i == j && Takes(s, i, frames, keep) then frames else []
    case _ => []
  }

  /** The frame that listener `i` has looked at with this step. */
  function LookedNow(s: State, step: Step, i: nat): seq<Frame>
  {
    if step == Go(i) && IsListener(s, i) && s.threads[i].act.Inspect? then [s.threads[i].act.f] else []
  }

  /** The work entry with which listener `i` enters the dispatch loops. */
  function MadeNow(s: State, s': State, i: nat): seq<Work>
  {
    if IsListener(s, i) && IsListener(s', i) && s'.threads[i].act.Fan? && !s.threads[i].act.Fan?
    then [s'.threads[i].act.w] else []
  }

  function Received(host: Endian, steps: seq<Step>, i: nat): seq<Frame>
  {
    if steps == [] then []
    else
      var n := |steps| - 1;
      Received(host, steps[..n], i) + ReceivedNow(Run(Init(host), steps[..n]), steps[n], i)
  }

  function Looked(host: Endian, steps: seq<Step>, i: nat): seq<Frame>
  {
    if steps == [] then []
    else
      var n := |steps| - 1;
      Looked(host, steps[..n], i) + LookedNow(Run(Init(host), steps[..n]), steps[n], i)
  }

  function Made(host: Endian, steps: seq<Step>, i: nat): seq<Work>
  {
    if steps == [] then []
    else
      var n := |steps| - 1;
      Made(host, steps[..n], i) + MadeNow(Run(Init(host), steps[..n]), Run(Init(host), steps), i)
  }

  /* ---- What the three tests let pass ---- */

  /** At least a header, the protocol number of AoE, and on a big-endian host not marked as a response. */
  predicate Wanted(host: Endian, f: Frame)
  {
    f.len >= 24 && f.proto == 0x88a2 && (host == Big ==> f.verFlags & 0x08 == 0)
  }

  function WantedOf(host: Endian, fs: seq<Frame>): seq<Frame>
  {
    if fs == [] then []
    else WantedOf(host, fs[..|fs| - 1]) + if Wanted(host, fs[|fs| - 1]) then [fs[|fs| - 1]] else []
  }

  function FramesOf(ws: seq<Work>): (r: seq<Frame>)
    ensures |r| == |ws|
  {
    seq(|ws|, k requires 0 <= k < |ws| => ws[k].frame)
  }

  lemma WantedIsAccepted(host: Endian, f: Frame)
    ensures Accepts(host, f) <==> Wanted(host, f)
  {
    ResponseFilter(host, f);
  }

  /* ---- Received, looked at, made ---- */

  /** The frame that a listener is looking at. */
  function AtHand(t: Thread): seq<Frame>
  {
    if t.act.Inspect? then [t.act.f] else []
  }

  function Left(s: State, i: nat): seq<Frame>
  {
    if IsListener(s, i) then AtHand(s.threads[i]) + s.threads[i].role.rest else []
  }

  lemma StepHost(s: State, step: Step)
    ensures Do(s, step).host == s.host
    ensures |Do(s, step).threads| >= |s.threads|
    ensures forall i :: 0 <= i < |s.threads| ==> SameAddress(s.threads[i], Do(s, step).threads[i])
  {
  }

  lemma {:induction false} RunHost(host: Endian, steps: seq<Step>)
    ensures Run(Init(host), steps).host == host
  {
    if steps == [] {
    } else {
      RunHost(host, steps[..|steps| - 1]);
      StepHost(Run(Init(host), steps[..|steps| - 1]), steps[|steps| - 1]);
    }
  }

  /** A step of another thread leaves a listener alone. */
  lemma OthersLeaveListener(s: State, step: Step, i: nat)
    requires IsListener(s, i) && step != Go(i) && !(step.Receive? && step.i == i)
    ensures IsListener(Do(s, step), i) && Do(s, step).threads[i] == s.threads[i]
  {
  }

  lemma NewListener(s: State, step: Step, i: nat)
    requires !IsListener(s, i) && IsListener(Do(s, step), i)
    ensures Do(s, step).threads[i] == Thread(Listener(None, []), Idle)
  {
  }

  /** A read finds a listener with nothing left. */
  lemma ReceiveFrames(s: State, i: nat, frames: seq<Frame>, keep: bool)
    requires Inv(s) && IsListener(s, i)
    ensures var step := Receive(i, frames, keep);
            Left(s, i) + ReceivedNow(s, step, i) == Left(Do(s, step), i)
  {
    assert ThreadOK(s.threads, s.heap, i);
  }

  /** A step of its own moves a frame from the rest of the buffer to its hands, or out of them. */
  lemma OwnFrames(s: State, i: nat)
    requires Inv(s) && IsListener(s, i)
    ensures Left(s, i) == LookedNow(s, Go(i), i) + Left(Tick(s, i), i)
  {
    assert ThreadOK(s.threads, s.heap, i);
  }

  /** What a listener receives in a step, and had left before, it has looked at or left after it. */
  lemma StepFrames(s: State, step: Step, i: nat)
    requires Inv(s)
    ensures Left(s, i) + ReceivedNow(s, step, i) == LookedNow(s, step, i) + Left(Do(s, step), i)
  {
    if !IsListener(s, i) {
      if IsListener(Do(s, step), i) {
        NewListener(s, step, i);
      }
    } else if step == Go(i) {
      OwnFrames(s, i);
    } else if step.Receive? && step.i == i {
      ReceiveFrames(s, i, step.frames, step.keep);
    } else {
      OthersLeaveListener(s, step, i);
    }
  }

  /** What is said of the entries that a step makes. */
  ghost predicate MadeOf(s: State, s': State, i: nat, looked: seq<Frame>, made: seq<Work>)
  {
    && FramesOf(made) == WantedOf(s.host, looked)
    && forall w :: w in made ==>
         w.ifentry == i && w.seen == |s.threads| && w.id == s.heap.nextWork && W(w) in s'.heap.born
  }

  lemma OwnMade(s: State, i: nat)
    requires Inv(s) && IsListener(s, i)
    ensures MadeOf(s, Tick(s, i), i, LookedNow(s, Go(i), i), MadeNow(s, Tick(s, i), i))
  {
    assert ThreadOK(s.threads, s.heap, i);
    if s.threads[i].act.Inspect? {
      WantedIsAccepted(s.host, s.threads[i].act.f);
    }
  }

  /** A listener makes a work entry exactly for a frame that passes the tests, and the entry has its frame. */
  lemma StepMade(s: State, step: Step, i: nat)
    requires Inv(s)
    ensures MadeOf(s, Do(s, step), i, LookedNow(s, step, i), MadeNow(s, Do(s, step), i))
  {
    if IsListener(s, i) {
      if step == Go(i) {
        OwnMade(s, i);
      } else if !(step.Receive? && step.i == i) {
        OthersLeaveListener(s, step, i);
      }
    }
  }

  /* ---- Over runs ---- */

  lemma RunStep(host: Endian, steps: seq<Step>)
    requires steps != []
    ensures Run(Init(host), steps) == Do(Run(Init(host), steps[..|steps| - 1]), steps[|steps| - 1])
  {
  }

  /** In every reachable state a listener has looked at all that it received, in order, but for the frame at
      hand and the rest of the buffer. */
  lemma {:induction false} FramesAccounted(host: Endian, steps: seq<Step>, i: nat)
    ensures Received(host, steps, i) == Looked(host, steps, i) + Left(Run(Init(host), steps), i)
  {
    if steps == [] {
    } else {
      var n := |steps| - 1;
      var s := Run(Init(host), steps[..n]);
      FramesAccounted(host, steps[..n], i);
      RunInv(host, steps[..n]);
      RunStep(host, steps);
      StepFrames(s, steps[n], i);
      Regroup(Looked(host, steps[..n], i), Left(s, i), ReceivedNow(s, steps[n], i), LookedNow(s, steps[n], i),
              Left(Do(s, steps[n]), i));
    }
  }

  lemma Regroup<T>(a: seq<T>, b: seq<T>, c: seq<T>, d: seq<T>, e: seq<T>)
    requires b + c == d + e
    ensures a + b + c == a + d + e
  {
    assert a + b + c == a + (b + c);
    assert a + d + e == a + (d + e);
  }

  lemma WantedAppend(host: Endian, fs: seq<Frame>, more: seq<Frame>)
    requires |more| <= 1
    ensures WantedOf(host, fs + more) == WantedOf(host, fs) + WantedOf(host, more)
  {
    if |more| == 1 {
      assert (fs + more)[..|fs|] == fs && more[..0] == [];
    } else {
      assert fs + more == fs;
    }
  }

  /** The entries that a listener has made carry, in order, the frames it looked at that pass the tests. */
  lemma {:induction false} MadeFrames(host: Endian, steps: seq<Step>, i: nat)
    ensures FramesOf(Made(host, steps, i)) == WantedOf(host, Looked(host, steps, i))
  {
    if steps == [] {
    } else {
      var n := |steps| - 1;
      var s := Run(Init(host), steps[..n]);
      MadeFrames(host, steps[..n], i);
      RunInv(host, steps[..n]);
      RunHost(host, steps[..n]);
      RunStep(host, steps);
      StepMade(s, steps[n], i);
      WantedAppend(host, Looked(host, steps[..n], i), LookedNow(s, steps[n], i));
      FramesAppend(Made(host, steps[..n], i), MadeNow(s, Run(Init(host), steps), i));
    }
  }

  lemma FramesAppend(a: seq<Work>, b: seq<Work>)
    ensures FramesOf(a + b) == FramesOf(a) + FramesOf(b)
  {
  }

  lemma ReleaseBorn(h: Heap, w: Work, d: DropStage, next: Activity)
    ensures ReleaseTick(h, w, d, next).0.born == h.born && ReleaseTick(h, w, d, next).0.nextWork == h.nextWork
  {
  }

  lemma TickBorn(s: State, i: nat)
    requires i < |s.threads|
    ensures s.heap.born <= Tick(s, i).heap.born && s.heap.nextWork <= Tick(s, i).heap.nextWork
  {
    var act := s.threads[i].act;
    if act.Release? {
      ReleaseBorn(s.heap, act.w, act.drop, act.next);
    }
  }

  lemma StepBorn(s: State, step: Step)
    ensures s.heap.born <= Do(s, step).heap.born && s.heap.nextWork <= Do(s, step).heap.nextWork
  {
    if step.Go? && step.i < |s.threads| {
      TickBorn(s, step.i);
    }
  }

  /** The entries of a listener are different from each other. */
  lemma {:induction false} MadeOnce(host: Endian, steps: seq<Step>, i: nat)
    ensures var ws, h := Made(host, steps, i), Run(Init(host), steps).heap;
            && (forall w :: w in ws ==> w.ifentry == i && W(w) in h.born && w.id < h.nextWork)
            && forall j, k :: 0 <= j < k < |ws| ==> ws[j].id < ws[k].id
  {
    if steps == [] {
    } else {
      var n := |steps| - 1;
      var s := Run(Init(host), steps[..n]);
      MadeOnce(host, steps[..n], i);
      RunInv(host, steps[..n]);
      RunInv(host, steps);
      RunStep(host, steps);
      StepMade(s, steps[n], i);
      StepBorn(s, steps[n]);
    }
  }

  /* ---- Onto the queues ---- */

  function Copies<T>(x: T, n: nat): (r: seq<T>)
    ensures |r| == n && forall k :: 0 <= k < n ==> r[k] == x
  {
    seq(n, _ => x)
  }

  /** Those of the entries that listener `i` made. */
  function From(ws: seq<Work>, i: nat): seq<Work>
  {
    if ws == [] then []
    else From(ws[..|ws| - 1], i) + if ws[|ws| - 1].ifentry == i then [ws[|ws| - 1]] else []
  }

  lemma FromAppend(ws: seq<Work>, w: Work, i: nat)
    ensures From(ws + [w], i) == From(ws, i) + if w.ifentry == i then [w] else []
  {
    assert (ws + [w])[..|ws|] == ws;
  }

  /** What the plans of these entries put on the queue of `d`. */
  function Due(ws: seq<Work>, d: nat): seq<Work>
  {
    if ws == [] then []
    else Due(ws[..|ws| - 1], d) + Copies(ws[|ws| - 1], multiset(ws[|ws| - 1].plan)[d])
  }

  lemma DueAppend(ws: seq<Work>, more: seq<Work>, d: nat)
    requires |more| <= 1
    ensures Due(ws + more, d) == Due(ws, d) + Due(more, d)
  {
    if |more| == 1 {
      assert (ws + more)[..|ws|] == ws && more[..0] == [];
    } else {
      assert ws + more == ws;
    }
  }

  /** What listener `i` has still to put on the queue of `d` for the entry it is busy with. */
  function Owed(s: State, i: nat, d: nat): seq<Work>
  {
    if IsListener(s, i) && s.threads[i].act.Fan? then Copies(s.threads[i].act.w, multiset(s.threads[i].act.todo)[d])
    else []
  }

  predicate IsWorker(s: State, d: nat)
  {
    d < |s.threads| && s.threads[d].role.Worker?
  }

  function Sent(s: State, i: nat, d: nat): seq<Work>
    requires IsWorker(s, d)
  {
    From(s.threads[d].role.dispatched, i) + Owed(s, i, d)
  }

  predicate Enqueues(s: State, step: Step)
  {
    step.Go? && IsListener(s, step.i) && s.threads[step.i].act.Fan?
    && s.threads[step.i].act.todo != [] && s.threads[step.i].act.stage.Enqueue?
  }

  /** Only an insertion by a listener changes what was dispatched to a worker. */
  lemma OthersQueueNothing(s: State, step: Step, d: nat)
    requires Inv(s) && IsWorker(s, d) && !Enqueues(s, step)
    ensures IsWorker(Do(s, step), d) && Do(s, step).threads[d].role.dispatched == s.threads[d].role.dispatched
  {
  }

  lemma OwnOwed(s: State, i: nat, d: nat)
    requires Inv(s) && IsListener(s, i) && !Enqueues(s, Go(i))
    ensures Owed(Tick(s, i), i, d) == Owed(s, i, d) + Due(MadeNow(s, Tick(s, i), i), d)
  {
    assert ThreadOK(s.threads, s.heap, i);
    var act := s.threads[i].act;
    if act.Inspect? && Accepts(s.host, act.f) {
      DueOne(Tick(s, i).threads[i].act.w, d);
    } else if act.Fan? && act.todo != [] && act.stage.BumpPacket? {
      InvLocal(s, i);
      BumpPacketMoves(s.threads, s.heap, i);
    }
  }

  lemma DueOne(w: Work, d: nat)
    ensures Due([w], d) == Copies(w, multiset(w.plan)[d])
  {
    assert [w][..0] == [];
  }

  lemma OwedStep(s: State, step: Step, i: nat, d: nat)
    requires Inv(s) && !Enqueues(s, step)
    ensures Owed(Do(s, step), i, d) == Owed(s, i, d) + Due(MadeNow(s, Do(s, step), i), d)
  {
    if !IsListener(s, i) {
      if IsListener(Do(s, step), i) {
        NewListener(s, step, i);
      }
    } else if step == Go(i) {
      OwnOwed(s, i, d);
    } else if !(step.Receive? && step.i == i) {
      OthersLeaveListener(s, step, i);
    } else {
      assert ThreadOK(s.threads, s.heap, i);
    }
  }

  lemma EnqueueOwed(s: State, j: nat, i: nat, d: nat)
    requires Inv(s) && IsWorker(s, d) && Enqueues(s, Go(j))
    ensures var (w, todo) := (s.threads[j].act.w, s.threads[j].act.todo);
            Owed(Tick(s, j), i, d) == if i == j then Copies(w, multiset(todo[1..])[d]) else Owed(s, i, d)
    ensures MadeNow(s, Tick(s, j), i) == []
  {
    assert ThreadOK(s.threads, s.heap, j);
    assert s.threads[j].act.todo[0] in s.threads[j].act.todo;
    if i != j {
      if IsListener(s, i) {
        OthersLeaveListener(s, Go(j), i);
      } else if IsListener(Tick(s, j), i) {
        NewListener(s, Go(j), i);
      }
    }
  }

  lemma EnqueueDispatched(s: State, j: nat, d: nat)
    requires Inv(s) && IsWorker(s, d) && Enqueues(s, Go(j))
    ensures IsWorker(Tick(s, j), d) && s.threads[j].act.w.ifentry == j
    ensures var (w, todo) := (s.threads[j].act.w, s.threads[j].act.todo);
            Tick(s, j).threads[d].role.dispatched
            == if todo[0] == d then s.threads[d].role.dispatched + [w] else s.threads[d].role.dispatched
  {
    assert ThreadOK(s.threads, s.heap, j);
    assert s.threads[j].act.todo[0] in s.threads[j].act.todo;
  }

  lemma EnqueueFrom(s: State, j: nat, i: nat, d: nat)
    requires Inv(s) && IsWorker(s, d) && Enqueues(s, Go(j))
    ensures IsWorker(Tick(s, j), d)
    ensures From(Tick(s, j).threads[d].role.dispatched, i)
         == From(s.threads[d].role.dispatched, i)
            + if i == j && s.threads[j].act.todo[0] == d then [s.threads[j].act.w] else []
  {
    EnqueueDispatched(s, j, d);
    FromAppend(s.threads[d].role.dispatched, s.threads[j].act.w, i);
  }

  /** An insertion: what was owed has been sent. */
  lemma EnqueueSent(s: State, j: nat, i: nat, d: nat)
    requires Inv(s) && IsWorker(s, d) && Enqueues(s, Go(j))
    ensures IsWorker(Tick(s, j), d) && Sent(Tick(s, j), i, d) == Sent(s, i, d) && MadeNow(s, Tick(s, j), i) == []
  {
    EnqueueOwed(s, j, i, d);
    EnqueueFrom(s, j, i, d);
    var w, todo := s.threads[j].act.w, s.threads[j].act.todo;
    HandedOver(From(s.threads[d].role.dispatched, i), w, todo, d);
    assert From(s.threads[d].role.dispatched, i) + [] == From(s.threads[d].role.dispatched, i);
  }

  lemma HandedOver(a: seq<Work>, w: Work, todo: seq<nat>, d: nat)
    requires todo != []
    ensures a + (if todo[0] == d then [w] else []) + Copies(w, multiset(todo[1..])[d]) == a + Copies(w, multiset(todo)[d])
  {
    assert todo == [todo[0]] + todo[1..];
    if todo[0] == d {
      var n := multiset(todo)[d];
      assert Copies(w, n) == [w] + Copies(w, n - 1);
      assert a + [w] + Copies(w, n - 1) == a + ([w] + Copies(w, n - 1));
    } else {
      assert a + [] == a;
    }
  }

  lemma StepSent(s: State, step: Step, i: nat, d: nat)
    requires Inv(s) && IsWorker(s, d)
    ensures IsWorker(Do(s, step), d)
    ensures Sent(Do(s, step), i, d) == Sent(s, i, d) + Due(MadeNow(s, Do(s, step), i), d)
  {
    if Enqueues(s, step) {
      EnqueueSent(s, step.i, i, d);
    } else {
      OthersQueueNothing(s, step, d);
      OwedStep(s, step, i, d);
    }
  }

  /** A worker starts with nothing, and while no listener is in the loops. */
  lemma NewWorkerSent(s: State, step: Step, i: nat, d: nat)
    requires !IsWorker(s, d) && IsWorker(Do(s, step), d)
    ensures d == |s.threads| && step.AttachWorker?
    ensures Do(s, step).threads[d] == Thread(Worker(step.shelf, step.slot, [], [], []), Start(step.adverts))
    ensures Sent(Do(s, step), i, d) == [] && MadeNow(s, Do(s, step), i) == []
  {
  }

  lemma {:induction false} DueNone(ws: seq<Work>, d: nat)
    requires forall w :: w in ws ==> d !in w.plan
    ensures Due(ws, d) == []
  {
    if ws == [] {
    } else {
      DueNone(ws[..|ws| - 1], d);
    }
  }

  lemma PlansInside(host: Endian, steps: seq<Step>, i: nat, d: nat)
    requires d >= |Run(Init(host), steps).threads|
    ensures Due(Made(host, steps, i), d) == []
  {
    var s := Run(Init(host), steps);
    RunInv(host, steps);
    MadeOnce(host, steps, i);
    forall w | w in Made(host, steps, i) ensures d !in w.plan {
      assert PlanOK(s.threads, w);
      PlanIsWorkers(s.threads[..w.seen], w.frame);
    }
    DueNone(Made(host, steps, i), d);
  }

  /** In every interleaving the entries of one listener are on the queue of a device in the order in which it
      made them, each as often as its plan says, but for those that it has still to insert. */
  lemma {:induction false} QueueOrder(host: Endian, steps: seq<Step>, i: nat, d: nat)
    requires IsWorker(Run(Init(host), steps), d)
    ensures Sent(Run(Init(host), steps), i, d) == Due(Made(host, steps, i), d)
  {
    if steps == [] {
    } else {
      var n := |steps| - 1;
      var s, made := Run(Init(host), steps[..n]), Made(host, steps[..n], i);
      RunInv(host, steps[..n]);
      RunStep(host, steps);
      if IsWorker(s, d) {
        QueueOrder(host, steps[..n], i, d);
        StepSent(s, steps[n], i, d);
        DueAppend(made, MadeNow(s, Do(s, steps[n]), i), d);
      } else {
        NewWorkerSent(s, steps[n], i, d);
        PlansInside(host, steps[..n], i, d);
        assert made + [] == made;
      }
    }
  }

  /* ---- What a device gets ---- */

  /** How often a frame goes to a device: once for its address and once more if it is a broadcast. */
  function Times(f: Frame, shelf: uint16, slot: nat): nat
  {
    One(f.shelf == shelf && f.slot == slot) + One(f.shelf == 0xffff && f.slot == 0xff)
  }

  function Addressing(fs: seq<Frame>, shelf: uint16, slot: nat): seq<Frame>
  {
    if fs == [] then []
    else Addressing(fs[..|fs| - 1], shelf, slot) + Copies(fs[|fs| - 1], Times(fs[|fs| - 1], shelf, slot))
  }

  lemma PlanTimes(ts: seq<Thread>, w: Work, d: nat)
    requires PlanHead(ts, w) && d < w.seen && ts[d].role.Worker?
    ensures multiset(w.plan)[d] == Times(w.frame, ts[d].role.shelf, ts[d].role.slot)
  {
    PlanCount(ts[..w.seen], w.frame, d);
  }

  lemma {:induction false} DueFrames(ts: seq<Thread>, ws: seq<Work>, d: nat)
    requires d < |ts| && ts[d].role.Worker? && forall w :: w in ws ==> PlanHead(ts, w) && d < w.seen
    ensures FramesOf(Due(ws, d)) == Addressing(FramesOf(ws), ts[d].role.shelf, ts[d].role.slot)
  {
    if ws == [] {
    } else {
      var n := |ws| - 1;
      DueFrames(ts, ws[..n], d);
      PlanTimes(ts, ws[n], d);
      FramesAppend(Due(ws[..n], d), Copies(ws[n], multiset(ws[n].plan)[d]));
      assert FramesOf(ws)[..n] == FramesOf(ws[..n]);
    }
  }

  lemma {:induction false} Grows(host: Endian, pre: seq<Step>, post: seq<Step>, d: nat)
    requires IsWorker(Run(Init(host), pre), d)
    ensures IsWorker(Run(Init(host), pre + post), d)
    ensures SameAddress(Run(Init(host), pre).threads[d], Run(Init(host), pre + post).threads[d])
  {
    if post == [] {
      assert pre + post == pre;
    } else {
      var n := |post| - 1;
      Grows(host, pre, post[..n], d);
      assert (pre + post)[..|pre + post| - 1] == pre + post[..n];
      RunStep(host, pre + post);
      StepHost(Run(Init(host), pre + post[..n]), post[n]);
    }
  }

  lemma MadeSeen(host: Endian, steps: seq<Step>, i: nat)
    requires steps != []
    ensures var before := steps[..|steps| - 1];
            forall w :: w in Made(host, steps, i) ==>
              w in Made(host, before, i) || w.seen == |Run(Init(host), before).threads|
  {
    var n := |steps| - 1;
    RunInv(host, steps[..n]);
    RunStep(host, steps);
    StepMade(Run(Init(host), steps[..n]), steps[n], i);
  }

  /** A listener that had received nothing when the device was started makes all its entries later. */
  lemma {:induction false} MadeLater(host: Endian, pre: seq<Step>, post: seq<Step>, i: nat, d: nat)
    requires IsWorker(Run(Init(host), pre), d) && Received(host, pre, i) == []
    ensures forall w :: w in Made(host, pre + post, i) ==> d < w.seen
  {
    if post == [] {
      assert pre + post == pre;
      FramesAccounted(host, pre, i);
      MadeFrames(host, pre, i);
    } else {
      var n, steps := |post| - 1, pre + post;
      MadeLater(host, pre, post[..n], i, d);
      Grows(host, pre, post[..n], d);
      assert steps[..|steps| - 1] == pre + post[..n];
      MadeSeen(host, steps, i);
    }
  }

  /** What a listener sends to a device that was there before it received anything, in every interleaving:
      all frames that it has looked at, pass the three tests and are addressed to the device, in order. */
  lemma SentFrames(host: Endian, pre: seq<Step>, post: seq<Step>, i: nat, d: nat)
    requires IsWorker(Run(Init(host), pre), d) && Received(host, pre, i) == []
    ensures var s := Run(Init(host), pre + post);
            && IsWorker(s, d)
            && FramesOf(Sent(s, i, d))
               == Addressing(WantedOf(host, Looked(host, pre + post, i)), s.threads[d].role.shelf, s.threads[d].role.slot)
  {
    var steps := pre + post;
    var s := Run(Init(host), steps);
    Grows(host, pre, post, d);
    QueueOrder(host, steps, i, d);
    MadeLater(host, pre, post, i, d);
    MadeOnce(host, steps, i);
    RunInv(host, steps);
    forall w | w in Made(host, steps, i) ensures PlanHead(s.threads, w) && d < w.seen {
      assert PlanOK(s.threads, w);
    }
    DueFrames(s.threads, Made(host, steps, i), d);
    MadeFrames(host, steps, i);
  }

  /** No frame is lost, invented, changed or put in another order: where no thread can move, the requests of a
      listener that a device has processed are exactly the frames that the listener received, pass the three
      tests and are addressed to the device. */
  lemma Delivered(host: Endian, pre: seq<Step>, post: seq<Step>, i: nat, d: nat)
    requires IsWorker(Run(Init(host), pre), d) && Received(host, pre, i) == []
    requires Quiet(Run(Init(host), pre + post))
    ensures var s := Run(Init(host), pre + post);
            && IsWorker(s, d)
            && var r := s.threads[d].role;
               FramesOf(From(r.processed, i))
               == Addressing(WantedOf(host, Received(host, pre + post, i)), r.shelf, r.slot)
  {
    var steps := pre + post;
    var s := Run(Init(host), steps);
    RunInv(host, steps);
    SentFrames(host, pre, post, i, d);
    FramesAccounted(host, steps, i);
    QuietIsDrained(s);
    if IsListener(s, i) {
      assert ThreadOK(s.threads, s.heap, i) && !Enabled(s.threads[i]);
    }
    var r := s.threads[d].role;
    assert r.processed == r.dispatched;
    assert From(r.processed, i) + [] == From(r.processed, i);
    assert Looked(host, steps, i) + [] == Looked(host, steps, i);
  }

  lemma {:induction false} FromAll(ws: seq<Work>, w: Work)
    requires w in ws
    ensures w in From(ws, w.ifentry)
  {
    if w != ws[|ws| - 1] {
      assert w in ws[..|ws| - 1];
      FromAll(ws[..|ws| - 1], w);
    }
  }

  lemma {:induction false} DueIsMade(ws: seq<Work>, d: nat, w: Work)
    requires w in Due(ws, d)
    ensures w in ws
  {
    if w in Due(ws[..|ws| - 1], d) {
      DueIsMade(ws[..|ws| - 1], d, w);
    }
  }

  /** And whatever is on a queue was made by a listener for a frame that it received. */
  lemma OnlyReceived(host: Endian, steps: seq<Step>, d: nat, w: Work)
    requires IsWorker(Run(Init(host), steps), d) && w in Run(Init(host), steps).threads[d].role.dispatched
    ensures w in Made(host, steps, w.ifentry) && w.frame in WantedOf(host, Looked(host, steps, w.ifentry))
  {
    QueueOrder(host, steps, w.ifentry, d);
    FromAll(Run(Init(host), steps).threads[d].role.dispatched, w);
    DueIsMade(Made(host, steps, w.ifentry), d, w);
    MadeFrames(host, steps, w.ifentry);
    var made := Made(host, steps, w.ifentry);
    var k :| 0 <= k < |made| && made[k] == w;
    assert FramesOf(made)[k] == w.frame;
  }

  /* ---- Advertisements of a starting worker ---- */

  function AdvertsLeft(s: State, d: nat): nat
  {
    if !IsWorker(s, d) then 0
    else
      match s.threads[d].act
      case Start(n) => n
      case Got(_, Start(n)) => n + 1
      case Release(_, _, Start(n)) => n
      case _ => 0
  }

  function AskedNow(s: State, step: Step, d: nat): nat
  {
    if step.AttachWorker? && DeviceListFree(s) && d == |s.threads| then step.adverts else 0
  }

  /** The worker processes an entry on its way back to the start. */
  function AdvertisedNow(s: State, step: Step, d: nat): nat
  {
    One(step == Go(d) && IsWorker(s, d) && s.threads[d].act.Got? && s.threads[d].act.next.Start?)
  }

  function Asked(host: Endian, steps: seq<Step>, d: nat): nat
  {
    if steps == [] then 0
    else
      var n := |steps| - 1;
      Asked(host, steps[..n], d) + AskedNow(Run(Init(host), steps[..n]), steps[n], d)
  }

  function Advertised(host: Endian, steps: seq<Step>, d: nat): nat
  {
    if steps == [] then 0
    else
      var n := |steps| - 1;
      Advertised(host, steps[..n], d) + AdvertisedNow(Run(Init(host), steps[..n]), steps[n], d)
  }

  lemma OwnAdverts(s: State, d: nat)
    requires Inv(s) && IsWorker(s, d)
    ensures AdvertsLeft(s, d) == AdvertisedNow(s, Go(d), d) + AdvertsLeft(Tick(s, d), d)
  {
    assert ThreadOK(s.threads, s.heap, d);
  }

  /** What other threads do to a worker is to queue an entry and to wake it. */
  lemma OthersLeaveStart(s: State, step: Step, d: nat)
    requires IsWorker(s, d) && step != Go(d)
    ensures IsWorker(Do(s, step), d)
    ensures Do(s, step).threads[d].act == s.threads[d].act || s.threads[d].act.Waiting?
    ensures s.threads[d].act.Waiting? ==> Do(s, step).threads[d].act.Waiting? || Do(s, step).threads[d].act.Woken?
  {
  }

  lemma StepAdverts(s: State, step: Step, d: nat)
    requires Inv(s)
    ensures AdvertsLeft(s, d) + AskedNow(s, step, d) == AdvertisedNow(s, step, d) + AdvertsLeft(Do(s, step), d)
  {
    if IsWorker(s, d) {
      if step == Go(d) {
        OwnAdverts(s, d);
      } else {
        OthersLeaveStart(s, step, d);
      }
    } else if IsWorker(Do(s, step), d) {
      NewWorkerSent(s, step, d, d);
    }
  }

  /** In every interleaving a worker has processed as many advertisements as it was started with, but for those
      it has still to make. */
  lemma {:induction false} AdvertsMade(host: Endian, steps: seq<Step>, d: nat)
    ensures Asked(host, steps, d) == Advertised(host, steps, d) + AdvertsLeft(Run(Init(host), steps), d)
  {
    if steps == [] {
    } else {
      var n := |steps| - 1;
      AdvertsMade(host, steps[..n], d);
      RunInv(host, steps[..n]);
      RunStep(host, steps);
      StepAdverts(Run(Init(host), steps[..n]), steps[n], d);
    }
  }
}
