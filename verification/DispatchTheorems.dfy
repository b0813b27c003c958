/** What the dispatch runtime guarantees in every reachable state and over every run. */
module DispatchTheorems {
  import opened Aoe
  import opened Common
  import opened Dispatch
  import opened DispatchSafety
  import opened DispatchRuns

  ghost predicate Reachable(s: State)
  {
    exists host, steps :: s == Run(Init(host), steps)
  }

  lemma ReachableInv(s: State)
    requires Reachable(s)
    ensures Inv(s)
  {
    var host, steps :| s == Run(Init(host), steps);
    RunInv(host, steps);
  }

  /** No thread ever reads, writes or locks a freed packet or work entry, and none follows a rawbuf
      that is NULL. */
  lemma NoFault(s: State)
    requires Reachable(s)
    ensures !s.heap.fault
  {
    ReachableInv(s);
  }

  /** The refcount of a live object is the number of references its holders have still to drop. */
  lemma RefcountsExact(s: State, r: Ref)
    requires Reachable(s)
    ensures r in s.heap.count ==> s.heap.count[r] == Total(s.threads, r) >= 1
    ensures r !in s.heap.count ==> Total(s.threads, r) == 0
  {
    ReachableInv(s);
    assert Count(s.heap, r) == Total(s.threads, r);
  }

  /** Every allocated object is live, or was freed exactly once, and never both. */
  lemma FreedExactlyOnce(s: State, r: Ref)
    requires Reachable(s) && r in s.heap.born
    ensures s.heap.freed[r] == if r in s.heap.count then 0 else 1
  {
    ReachableInv(s);
    assert r in s.heap.count || r in s.heap.freed;
    assert s.heap.freed[r] <= 1;
  }

  /** A thread that enters qaoed_workdestroy finds rawbuf set and its packet live. */
  lemma RawbufSetBeforeDrop(s: State, i: nat)
    requires Reachable(s) && i < |s.threads|
    requires s.threads[i].act.Release? && s.threads[i].act.drop.ReadRaw?
    ensures var w := s.threads[i].act.w;
            && w in s.heap.raw && s.heap.raw[w] == Some(w.pkt)
            && W(w) in s.heap.count && P(w.pkt) in s.heap.count
  {
    ReachableInv(s);
    InvLocal(s, i);
    var w := s.threads[i].act.w;
    assert Hold(s.threads[i], W(w)) > 0;
    assert Hold(s.threads[i], P(w.pkt)) > 0;
  }

  /** What a worker has processed is a prefix of what was dispatched to its device. */
  lemma Fifo(s: State, d: nat)
    requires Reachable(s) && d < |s.threads| && s.threads[d].role.Worker?
    ensures var t := s.threads[d];
            && t.role.processed <= t.role.dispatched
            && t.role.dispatched == t.role.processed + InHand(t.act) + t.role.queue
  {
    ReachableInv(s);
    assert ThreadOK(s.threads, s.heap, d);
    var r := s.threads[d].role;
    assert r.dispatched == r.processed + (InHand(s.threads[d].act) + r.queue);
  }

  /* ---- Wake-ups ---- */

  /** Between critical sections a worker with queued work is not asleep, and none is stale. */
  lemma NoLostWakeup(s: State, d: nat)
    requires Reachable(s) && d < |s.threads| && s.threads[d].role.Worker?
    ensures s.threads[d].role.queue != [] ==> !s.threads[d].act.Waiting?
    ensures s.threads[d].act.Woken? ==> s.threads[d].role.queue != []
    ensures !s.threads[d].act.Stale?
  {
    ReachableInv(s);
    assert ThreadOK(s.threads, s.heap, d);
  }

  /** pthread_cond_wait may return without a signal. */
  function WakeSpuriously(s: State, d: nat): State
    requires d < |s.threads| && s.threads[d].act.Waiting?
  {
    SetThread(s, d, s.threads[d].(act := Woken), s.heap)
  }

  /** The worker tests its queue with `if` and not in a loop: woken without a signal in a reachable
      state, it reaches the work switch with an old entry. Module DispatchSpurious says exactly when that
      happens. */
  lemma SpuriousWakeup(s: State, d: nat)
    requires Reachable(s) && d < |s.threads| && s.threads[d].role.Worker? && s.threads[d].act.Waiting?
    ensures Tick(WakeSpuriously(s, d), d).threads[d].act.Stale?
  {
    ReachableInv(s);
    assert ThreadOK(s.threads, s.heap, d);
  }

  /* ---- Dispatch is exact ---- */

  lemma CountAppend(q: seq<nat>, n: nat, add: bool, d: nat)
    ensures multiset(q + if add then [n] else [])[d] == multiset(q)[d] + One(add && d == n)
  {
  }

  lemma {:induction false} MatchingCount(ts: seq<Thread>, f: Frame, d: nat)
    ensures multiset(Matching(ts, f))[d] == One(d < |ts| && Addressed(ts[d], f))
  {
    if ts != [] {
      var n := |ts| - 1;
      MatchingCount(ts[..n], f, d);
      CountAppend(Matching(ts[..n], f), n, Addressed(ts[n], f), d);
    }
  }

  lemma {:induction false} WorkersCount(ts: seq<Thread>, d: nat)
    ensures multiset(Workers(ts))[d] == One(d < |ts| && ts[d].role.Worker?)
  {
    if ts != [] {
      var n := |ts| - 1;
      WorkersCount(ts[..n], d);
      CountAppend(Workers(ts[..n]), n, ts[n].role.Worker?, d);
    }
  }

  /** How often each device occurs in the plan of a frame. */
  lemma PlanCount(ts: seq<Thread>, f: Frame, d: nat)
    ensures multiset(Plan(ts, f))[d]
         == One(d < |ts| && Addressed(ts[d], f)) + One(d < |ts| && ts[d].role.Worker? && IsBroadcast(f))
  {
    MatchingCount(ts, f, d);
    WorkersCount(ts, d);
  }

  /** The dispatcher of `w` has left the two loops. */
  predicate Dispatched(s: State, w: Work)
  {
    w.ifentry < |s.threads| && !(s.threads[w.ifentry].act.Fan? && s.threads[w.ifentry].act.w == w)
  }

  /** Once dispatched, an accepted request has been queued on a device once for each loop that
      selects it: one if its address matches, one more if the request is a broadcast. Devices that
      did not exist when the device list was read-locked get nothing. */
  lemma DispatchExact(s: State, w: Work, d: nat)
    requires Reachable(s) && W(w) in s.heap.born && Dispatched(s, w)
    requires d < |s.threads| && s.threads[d].role.Worker?
    ensures multiset(s.threads[d].role.dispatched)[w]
         == if d < w.seen then One(Addressed(s.threads[d], w.frame)) + One(IsBroadcast(w.frame)) else 0
  {
    ReachableInv(s);
    assert PlanOK(s.threads, w);
    assert Balanced(s.threads, w, d);
    PlanCount(s.threads[..w.seen], w.frame, d);
  }

  /** So an addressed device gets the request exactly once, and any other device never, if and only
      if no device has the broadcast address while a broadcast is dispatched. */
  lemma ExactlyOncePerAddressee(s: State, w: Work, d: nat)
    requires Reachable(s) && W(w) in s.heap.born && Dispatched(s, w)
    requires d < w.seen && d < |s.threads| && s.threads[d].role.Worker?
    ensures (multiset(s.threads[d].role.dispatched)[w]
             == One(Addressed(s.threads[d], w.frame) || IsBroadcast(w.frame)))
       <==> !(IsBroadcast(w.frame) && s.threads[d].role.shelf == ANY_SHELF && s.threads[d].role.slot == ANY_SLOT)
  {
    DispatchExact(s, w, d);
  }

  /** After the dispatcher's own final release, the refcount it leaves is the number of queue entries
      plus the number of workers that still hold the work entry. */
  lemma LeftToQueues(s: State, w: Work)
    requires Reachable(s) && W(w) in s.heap.count
    requires w.ifentry < |s.threads| && s.threads[w.ifentry].role.Listener?
    requires var act := s.threads[w.ifentry].act; (act.Fan? || act.Release?) ==> act.w != w
    ensures s.heap.count[W(w)] == WorkerHolds(s.threads, w)
  {
    ReachableInv(s);
    RefcountsExact(s, W(w));
    forall i | 0 <= i < |s.threads|
      ensures s.threads[i].role.Listener? ==> Hold(s.threads[i], W(w)) == 0
      ensures s.threads[i].role.Worker? ==> !s.threads[i].act.Fan?
    {
      assert ThreadOK(s.threads, s.heap, i);
    }
    WorkerHoldsTotal(s.threads, w);
  }

  /** Queue entries of `w`, plus one for each worker busy with it. */
  function WorkerHolds(ts: seq<Thread>, w: Work): nat
  {
    if ts == [] then 0
    else
      var t := ts[0];
      (if t.role.Worker? then
         multiset(t.role.queue)[w] + One((t.act.Got? || t.act.Release?) && t.act.w == w)
       else 0) + WorkerHolds(ts[1..], w)
  }

  lemma {:induction false} QueueOccurrences(q: seq<Work>, w: Work)
    ensures HoldQueue(q, W(w)) == multiset(q)[w]
  {
    if q != [] {
      QueueOccurrences(q[1..], w);
      assert q == [q[0]] + q[1..];
    }
  }

  lemma {:induction false} WorkerHoldsTotal(ts: seq<Thread>, w: Work)
    requires forall i :: 0 <= i < |ts| && ts[i].role.Listener? ==> Hold(ts[i], W(w)) == 0
    requires forall i :: 0 <= i < |ts| && ts[i].role.Worker? ==> !ts[i].act.Fan?
    ensures Total(ts, W(w)) == WorkerHolds(ts, w)
  {
    if ts != [] {
      WorkerHoldsTotal(ts[1..], w);
      if ts[0].role.Worker? {
        QueueOccurrences(ts[0].role.queue, w);
      } else {
        assert Hold(ts[0], W(w)) == 0;
      }
    }
  }
}
