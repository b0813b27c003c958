/** The dispatch runtime as a transition system (network.c, devices.c, arch/bsd_net.c,
    arch/linux_net.c): network listeners that share reference-counted packet buffers,
    reference-counted work entries, one queue and one worker per device.
    A step is one critical section, or one unlocked access to a shared field. */
module Dispatch {
  import opened Aoe
  import opened Common

  type PacketId = nat

  /** A work entry: its identity and the fields that are written once, before it is shared.
      `ifentry` is the thread that created it. `plan` records the devices that the two loops of
      processpacket visit, in order, when `seen` threads exist. The shared fields `rawbuf` and `refcount`
      live in the heap. */
  datatype Work = Work(id: nat, pkt: PacketId, frame: Frame, ifentry: nat, seen: nat, plan: seq<nat>)

  /** A reference-counted object. */
  datatype Ref = P(p: PacketId) | W(w: Work)

  /** `count` holds the refcount field of every live object, `raw` the rawbuf field of every work
      entry. `born` and `freed` are histories; `fault` records an access to a dead object. */
  datatype Heap = Heap(
    count: map<Ref, int>,
    raw: map<Work, Option<PacketId>>,
    nextPacket: nat,
    nextWork: nat,
    born: set<Ref>,
    freed: multiset<Ref>,
    fault: bool)

  /** Where a thread stands inside qaoed_workdestroy. */
  datatype DropStage = ReadRaw | DropPacket(p: PacketId) | ClearRaw | DropWork

  /** Where a listener stands in the body of the two dispatch loops. */
  datatype FanStage = BumpWork | BumpPacket | Enqueue

  /** Program counters. `Stale` is a worker that reached the work switch without a fresh entry. */
  datatype Activity =
    | Idle
    | Walk
    | Inspect(p: PacketId, f: Frame)
    | Fan(w: Work, todo: seq<nat>, stage: FanStage)
    | Start(adverts: nat)
    | Ready
    | Waiting
    | Woken
    | Got(w: Work, next: Activity)
    | Release(w: Work, drop: DropStage, next: Activity)
    | Stale

  /** A listener owns the buffer it walks (`own`) with the frames not yet looked at (`rest`).
      A worker has its queue; `dispatched` and `processed` are histories. */
  datatype Role =
    | Listener(own: Option<PacketId>, rest: seq<Frame>)
    | Worker(shelf: uint16, slot: nat, queue: seq<Work>,
             dispatched: seq<Work>, processed: seq<Work>)

  datatype Thread = Thread(role: Role, act: Activity)

  datatype State = State(host: Endian, threads: seq<Thread>, heap: Heap)

  /* ---- Heap operations: refcount++, refcount-- with free, malloc ---- */

  function Up(h: Heap, r: Ref): Heap
  {
    if r in h.count then h.(count := h.count[r := h.count[r] + 1]) else h.(fault := true)
  }

  function Down(h: Heap, r: Ref): Heap
  {
    if r !in h.count then h.(fault := true)
    else if h.count[r] - 1 < 1 then h.(count := h.count - {r}, freed := h.freed + multiset{r})
    else h.(count := h.count[r := h.count[r] - 1])
  }

  function NewPacket(h: Heap): Heap
  {
    var r := P(h.nextPacket);
    h.(count := h.count[r := 1], nextPacket := h.nextPacket + 1, born := h.born + {r})
  }

  function NewWork(h: Heap, w: Work): Heap
  {
    h.(count := h.count[W(w) := 1], raw := h.raw[w := Some(w.pkt)], nextWork := h.nextWork + 1,
       born := h.born + {W(w)})
  }

  /** qaoed_workdestroy, one shared access at a time: read rawbuf, drop the packet, clear rawbuf if
      that freed the packet, drop the work entry. */
  function ReleaseTick(h: Heap, w: Work, d: DropStage, next: Activity): (Heap, Activity)
  {
    match d
    case ReadRaw =>
      if W(w) !in h.count || w !in h.raw then (h.(fault := true), Release(w, DropWork, next))
      else if h.raw[w].Some? then (h, Release(w, DropPacket(h.raw[w].value), next))
      else (h, Release(w, DropWork, next))
    case DropPacket(p) =>
      var h' := Down(h, P(p));
      (h', Release(w, if P(p) in h'.count then DropWork else ClearRaw, next))
    case ClearRaw =>
      if W(w) !in h.count then (h.(fault := true), Release(w, DropWork, next))
      else (h.(raw := h.raw[w := None]), Release(w, DropWork, next))
    case DropWork =>
      (Down(h, W(w)), next)
  }

  /* ---- The devices that a frame is queued on ---- */

  predicate Addressed(t: Thread, f: Frame)
  {
    t.role.Worker? && t.role.shelf == f.shelf && t.role.slot == f.slot
  }

  function Matching(ts: seq<Thread>, f: Frame): seq<nat>
  {
    if ts == [] then []
    else
      var n := |ts| - 1;
      Matching(ts[..n], f) + if Addressed(ts[n], f) then [n] else []
  }

  function Workers(ts: seq<Thread>): seq<nat>
  {
    if ts == [] then []
    else
      var n := |ts| - 1;
      Workers(ts[..n]) + if ts[n].role.Worker? then [n] else []
  }

  /** The loop over the matching devices, then, for a broadcast, the loop over all of them. */
  function Plan(ts: seq<Thread>, f: Frame): seq<nat>
  {
    Matching(ts, f) + if IsBroadcast(f) then Workers(ts) else []
  }

  /* ---- One step of a thread ---- */

  function AfterFrame(own: Option<PacketId>): Activity
  {
    if own.Some? then Walk else Idle
  }

  function SetThread(s: State, i: nat, t: Thread, h: Heap): State
    requires i < |s.threads|
  {
    s.(threads := s.threads[i := t], heap := h)
  }

  /** Appends to the device queue and signals its condition variable, under the queue lock. */
  function Insert(t: Thread, w: Work): Thread
    requires t.role.Worker?
  {
    var r := t.role;
    Thread(r.(queue := r.queue + [w], dispatched := r.dispatched + [w]),
           if t.act.Waiting? then Woken else t.act)
  }

  /** Takes the first entry of the queue; without one the variable `work` keeps an old value. */
  function Dequeue(t: Thread): Thread
    requires t.role.Worker?
  {
    var r := t.role;
    if r.queue == [] then t.(act := Stale)
    else Thread(r.(queue := r.queue[1..]), Got(r.queue[0], Ready))
  }

  function ListenerTick(s: State, i: nat): State
    requires i < |s.threads| && s.threads[i].role.Listener?
  {
    var t, h := s.threads[i], s.heap;
    var own, rest := t.role.own, t.role.rest;
    match t.act
    case Walk =>
      if own.None? then s
      else if rest == [] then
        SetThread(s, i, Thread(Listener(None, []), Idle), Down(h, P(own.value)))
      else
        SetThread(s, i, Thread(Listener(own, rest[1..]), Inspect(own.value, rest[0])), Up(h, P(own.value)))
    case Inspect(p, f) =>
      if Accepts(s.host, f) then
        var w := Work(h.nextWork, p, f, i, |s.threads|, Plan(s.threads, f));
        SetThread(s, i, t.(act := Fan(w, w.plan, BumpWork)), NewWork(h, w))
      else
        SetThread(s, i, t.(act := AfterFrame(own)), Down(h, P(p)))
    case Fan(w, todo, stage) => FanTick(s, i, w, todo, stage)
    case Release(w, d, next) =>
      var (h', a) := ReleaseTick(h, w, d, next);
      SetThread(s, i, t.(act := a), h')
    case _ => s
  }

  /** One round of the dispatch loops: work->refcount++, packet->refcount++, insertwork. */
  function FanTick(s: State, i: nat, w: Work, todo: seq<nat>, stage: FanStage): State
    requires i < |s.threads| && s.threads[i].role.Listener?
  {
    var t, h := s.threads[i], s.heap;
    if todo == [] then
      SetThread(s, i, t.(act := Release(w, ReadRaw, AfterFrame(t.role.own))), h)
    else
      match stage
      case BumpWork => SetThread(s, i, t.(act := Fan(w, todo, BumpPacket)), Up(h, W(w)))
      case BumpPacket =>
        if w in h.raw && W(w) in h.count && h.raw[w].Some? then
          SetThread(s, i, t.(act := Fan(w, todo, Enqueue)), Up(h, P(h.raw[w].value)))
        else s.(heap := h.(fault := true))
      case Enqueue =>
        var d := todo[0];
        if d < |s.threads| && s.threads[d].role.Worker? then
          s.(threads := s.threads[i := t.(act := Fan(w, todo[1..], BumpWork))]
                                 [d := Insert(s.threads[d], w)])
        else s.(heap := h.(fault := true))
  }

  /** The frame that qaoed_dobcast fabricates; the worker processes it itself. */
  const ADVERT_FRAME := Frame(CFGHDR_LEN, ETH_P_AOE, 0x18, 0, 0)

  function WorkerTick(s: State, i: nat): State
    requires i < |s.threads| && s.threads[i].role.Worker?
  {
    var t, h := s.threads[i], s.heap;
    match t.act
    case Start(n) =>
      if n == 0 then SetThread(s, i, t.(act := Ready), h)
      else
        var w := Work(h.nextWork, h.nextPacket, ADVERT_FRAME, i, 0, []);
        SetThread(s, i, t.(act := Got(w, Start(n - 1))), NewWork(NewPacket(h), w))
    case Ready =>
      if t.role.queue == [] then SetThread(s, i, t.(act := Waiting), h)
      else SetThread(s, i, Dequeue(t), h)
    case Woken => SetThread(s, i, Dequeue(t), h)
    case Got(w, next) =>
      var h' := if W(w) in h.count && P(w.pkt) in h.count then h else h.(fault := true);
      var role := if next.Ready? then t.role.(processed := t.role.processed + [w]) else t.role;
      SetThread(s, i, Thread(role, Release(w, ReadRaw, next)), h')
    case Release(w, d, next) =>
      var (h', a) := ReleaseTick(h, w, d, next);
      SetThread(s, i, t.(act := a), h')
    case _ => s
  }

  function Tick(s: State, i: nat): State
    requires i < |s.threads|
  {
    if s.threads[i].role.Listener? then ListenerTick(s, i) else WorkerTick(s, i)
  }

  /* ---- Runs ---- */

  /** `Receive`: a read returns a buffer with its frames; `keep` says that the listener holds a
      reference of its own while it walks the buffer (BSD), otherwise the single frame takes over
      the first reference (Linux). `AttachListener` and `AttachWorker` start threads. */
  datatype Step =
    | Receive(i: nat, frames: seq<Frame>, keep: bool)
    | Go(i: nat)
    | AttachListener
    | AttachWorker(shelf: uint16, slot: nat, adverts: nat)

  /** The device list is read-locked while a listener is inside the dispatch loops. */
  predicate DeviceListFree(s: State)
  {
    forall i :: 0 <= i < |s.threads| ==> !s.threads[i].act.Fan?
  }

  function Do(s: State, step: Step): State
  {
    match step
    case Receive(i, frames, keep) =>
      if i < |s.threads| && s.threads[i].role.Listener? && s.threads[i].act.Idle? then
        var p := s.heap.nextPacket;
        if keep then
          SetThread(s, i, Thread(Listener(Some(p), frames), Walk), NewPacket(s.heap))
        else if |frames| == 1 && frames[0].len >= HDR_LEN then
          SetThread(s, i, Thread(Listener(None, []), Inspect(p, frames[0])), NewPacket(s.heap))
        else s
      else s
    case Go(i) => if i < |s.threads| then Tick(s, i) else s
    case AttachListener => s.(threads := s.threads + [Thread(Listener(None, []), Idle)])
    case AttachWorker(shelf, slot, n) =>
      if DeviceListFree(s) then
        s.(threads := s.threads + [Thread(Worker(shelf, slot, [], [], []), Start(n))])
      else s
  }

  function Run(s: State, steps: seq<Step>): State
  {
    if steps == [] then s else Do(Run(s, steps[..|steps| - 1]), steps[|steps| - 1])
  }

  function Init(host: Endian): State
  {
    State(host, [], Heap(map[], map[], 0, 0, {}, multiset{}, false))
  }
}
