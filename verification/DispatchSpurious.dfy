/** Runs in which pthread_cond_wait may also return without a signal: exactly when a worker then reaches
    the work switch with an old entry. */
module DispatchSpurious {
  import opened Aoe
  import opened Dispatch
  import opened DispatchTheorems

  /** A step of the system, or a wake-up without a signal. */
  datatype Event = Normal(step: Step) | Wake(d: nat)

  predicate WaitsAt(s: State, d: nat)
  {
    d < |s.threads| && s.threads[d].role.Worker? && s.threads[d].act.Waiting?
  }

  function Apply(s: State, e: Event): State
  {
    match e
    case Normal(step) => Do(s, step)
    case Wake(d) => if WaitsAt(s, d) then WakeSpuriously(s, d) else s
  }

  /** The states of a run from the start. */
  ghost predicate Trace(host: Endian, es: seq<Event>, ss: seq<State>)
  {
    && |ss| == |es| + 1 && ss[0] == Init(host)
    && forall i, j :: 0 <= i < j < |ss| && j == i + 1 ==> Follows(ss[i], es[i], ss[j])
  }

  ghost predicate Follows(s: State, e: Event, s': State)
  {
    s' == Apply(s, e)
  }

  predicate IsWorker(s: State, d: nat)
  {
    d < |s.threads| && s.threads[d].role.Worker?
  }

  /** What one event can do to a worker: its own step, a wake-up without a signal, a new queue entry with
      its signal, or nothing. */
  ghost predicate Affects(s: State, e: Event, d: nat, t': Thread)
    requires IsWorker(s, d)
  {
    var t := s.threads[d];
    if e == Normal(Go(d)) then t' == WorkerTick(s, d).threads[d]
    else if e == Wake(d) && t.act.Waiting? then t' == t.(act := Woken)
    else t' == t || exists w :: t' == Insert(t, w)
  }

  lemma OtherTick(s: State, i: nat, d: nat)
    requires IsWorker(s, d) && i < |s.threads| && i != d
    ensures IsWorker(Tick(s, i), d) && Affects(s, Normal(Go(i)), d, Tick(s, i).threads[d])
  {
    var t := s.threads[i];
    if t.role.Listener? && t.act.Fan? && t.act.todo != [] && t.act.stage.Enqueue? && t.act.todo[0] == d {
      assert Tick(s, i).threads[d] == Insert(s.threads[d], t.act.w);
    } else {
      assert Tick(s, i).threads[d] == s.threads[d];
    }
  }

  lemma EventAffects(s: State, e: Event, d: nat)
    requires IsWorker(s, d)
    ensures IsWorker(Apply(s, e), d) && Affects(s, e, d, Apply(s, e).threads[d])
  {
    match e
    case Wake(_) =>
    case Normal(Receive(_, _, _)) =>
    case Normal(AttachListener) =>
    case Normal(AttachWorker(_, _, _)) =>
    case Normal(Go(i)) =>
      if i < |s.threads| && i != d {
        OtherTick(s, i, d);
      }
  }

  /** A worker that is new starts with an empty queue, and is neither woken nor stale. */
  lemma NewWorker(s: State, e: Event, d: nat)
    requires !IsWorker(s, d) && IsWorker(Apply(s, e), d)
    ensures Apply(s, e).threads[d].act.Start?
  {
    match e
    case Wake(_) =>
    case Normal(Receive(_, _, _)) =>
    case Normal(AttachListener) =>
    case Normal(AttachWorker(_, _, _)) =>
    case Normal(Go(i)) =>
      if i < |s.threads| {
        NoNewWorker(s, i, d);
      }
  }

  lemma NoNewWorker(s: State, i: nat, d: nat)
    requires i < |s.threads| && !IsWorker(s, d)
    ensures !IsWorker(Tick(s, i), d)
  {
  }

  /** A worker waits only with an empty queue, and goes back to its loop after each entry. */
  predicate Tidy(t: Thread)
    requires t.role.Worker?
  {
    && (t.act.Waiting? ==> t.role.queue == [])
    && (t.act.Got? || t.act.Release? ==> t.act.next.Ready? || t.act.next.Start?)
  }

  lemma TickTidy(s: State, d: nat)
    requires IsWorker(s, d) && Tidy(s.threads[d])
    ensures IsWorker(WorkerTick(s, d), d) && Tidy(WorkerTick(s, d).threads[d])
    ensures !WorkerTick(s, d).threads[d].act.Woken?
    ensures WorkerTick(s, d).threads[d].act.Stale?
       <==> s.threads[d].act.Stale? || (s.threads[d].act.Woken? && s.threads[d].role.queue == [])
  {
  }

  lemma {:induction false} AlwaysTidy(host: Endian, es: seq<Event>, ss: seq<State>, n: nat, d: nat)
    requires Trace(host, es, ss) && n <= |es| && IsWorker(ss[n], d)
    ensures Tidy(ss[n].threads[d])
  {
    if n == 0 {
    } else {
      var s := ss[n - 1];
      if IsWorker(s, d) {
        AlwaysTidy(host, es, ss, n - 1, d);
        EventAffects(s, es[n - 1], d);
        TickTidy(s, d);
      } else {
        NewWorker(s, es[n - 1], d);
      }
    }
  }

  /** From after event `j` to before event `k` nothing happens to the worker. */
  ghost predicate Undisturbed(ss: seq<State>, d: nat, j: nat, k: nat)
    requires j < k < |ss|
  {
    IsWorker(ss[j + 1], d)
    && forall m :: j < m <= k ==>
         IsWorker(ss[m], d) && ss[m].threads[d] == ss[j + 1].threads[d]
  }

  /** Event `j` wakes the waiting worker without a signal, and nothing happens to it up to event `k`. */
  ghost predicate WokenForNothing(es: seq<Event>, ss: seq<State>, d: nat, j: nat, k: nat)
  {
    j < k <= |es| < |ss| && es[j] == Wake(d) && WaitsAt(ss[j], d) && Undisturbed(ss, d, j, k)
  }

  /** How a worker gets to be awake with an empty queue. */
  lemma AwakeStep(host: Endian, es: seq<Event>, ss: seq<State>, n: nat, d: nat)
    requires Trace(host, es, ss) && 0 < n <= |es| && IsWorker(ss[n], d)
    requires ss[n].threads[d].act.Woken? && ss[n].threads[d].role.queue == []
    ensures IsWorker(ss[n - 1], d)
    ensures (es[n - 1] == Wake(d) && WaitsAt(ss[n - 1], d))
            || ss[n].threads[d] == ss[n - 1].threads[d]
  {
    var s, e := ss[n - 1], es[n - 1];
    if !IsWorker(s, d) {
      NewWorker(s, e, d);
    } else {
      AlwaysTidy(host, es, ss, n - 1, d);
      EventAffects(s, e, d);
      TickTidy(s, d);
    }
  }

  /** A worker that is awake with an empty queue was woken for nothing. */
  lemma {:induction false} AwakeForNothing(host: Endian, es: seq<Event>, ss: seq<State>, n: nat, d: nat) returns (j: nat)
    requires Trace(host, es, ss) && n <= |es| && IsWorker(ss[n], d)
    requires ss[n].threads[d].act.Woken? && ss[n].threads[d].role.queue == []
    ensures WokenForNothing(es, ss, d, j, n)
  {
    AwakeStep(host, es, ss, n, d);
    if es[n - 1] == Wake(d) && WaitsAt(ss[n - 1], d) {
      j := n - 1;
    } else {
      j := AwakeForNothing(host, es, ss, n - 1, d);
      StillUndisturbed(ss, d, j, n - 1);
    }
  }

  lemma StillUndisturbed(ss: seq<State>, d: nat, j: nat, k: nat)
    requires j < k < |ss| - 1 && Undisturbed(ss, d, j, k)
    requires IsWorker(ss[k + 1], d) && ss[k + 1].threads[d] == ss[k].threads[d]
    ensures Undisturbed(ss, d, j, k + 1)
  {
    forall m | j < m <= k + 1
      ensures IsWorker(ss[m], d) && ss[m].threads[d] == ss[j + 1].threads[d]
    {
      if m == k + 1 {
        assert ss[k].threads[d] == ss[j + 1].threads[d];
      }
    }
  }

  lemma {:induction false} StaleStays(host: Endian, es: seq<Event>, ss: seq<State>, k: nat, n: nat, d: nat)
    requires Trace(host, es, ss) && k <= n <= |es| && IsWorker(ss[k], d) && ss[k].threads[d].act.Stale?
    ensures IsWorker(ss[n], d) && ss[n].threads[d].act.Stale?
  {
    if k < n {
      StaleStays(host, es, ss, k, n - 1, d);
      EventAffects(ss[n - 1], es[n - 1], d);
    }
  }

  /** A wake-up for nothing, followed by the worker's next step. */
  ghost predicate TookNothing(es: seq<Event>, ss: seq<State>, d: nat, j: nat, k: nat)
  {
    k < |es| && WokenForNothing(es, ss, d, j, k) && es[k] == Normal(Go(d))
  }

  lemma NothingToTake(host: Endian, es: seq<Event>, ss: seq<State>, d: nat, j: nat, k: nat)
    requires Trace(host, es, ss) && TookNothing(es, ss, d, j, k)
    ensures IsWorker(ss[k + 1], d) && ss[k + 1].threads[d].act.Stale?
  {
    AlwaysTidy(host, es, ss, j, d);
    var s := ss[j];
    assert ss[j + 1].threads[d] == s.threads[d].(act := Woken);
    assert ss[k].threads[d] == ss[j + 1].threads[d];
  }

  lemma {:induction false} StaleTookNothing(host: Endian, es: seq<Event>, ss: seq<State>, n: nat, d: nat)
      returns (j: nat, k: nat)
    requires Trace(host, es, ss) && n <= |es| && IsWorker(ss[n], d) && ss[n].threads[d].act.Stale?
    ensures k < n && TookNothing(es, ss, d, j, k)
  {
    var s, e := ss[n - 1], es[n - 1];
    if !IsWorker(s, d) {
      NewWorker(s, e, d);
    }
    AlwaysTidy(host, es, ss, n - 1, d);
    EventAffects(s, e, d);
    TickTidy(s, d);
    if s.threads[d].act.Stale? {
      j, k := StaleTookNothing(host, es, ss, n - 1, d);
    } else {
      k := n - 1;
      j := AwakeForNothing(host, es, ss, k, d);
    }
  }

  /** Over every run, with wake-ups without a signal anywhere: a worker has reached the work switch with an
      old entry if and only if at some time it was woken without a signal while it waited, and nothing was
      queued for it before its next step. */
  lemma StaleIff(host: Endian, es: seq<Event>, ss: seq<State>, d: nat)
    requires Trace(host, es, ss) && IsWorker(ss[|es|], d)
    ensures ss[|es|].threads[d].act.Stale? <==> exists j: nat, k: nat :: TookNothing(es, ss, d, j, k)
  {
    if ss[|es|].threads[d].act.Stale? {
      var j, k := StaleTookNothing(host, es, ss, |es|, d);
    }
    if j: nat, k: nat :| TookNothing(es, ss, d, j, k) {
      NothingToTake(host, es, ss, d, j, k);
      StaleStays(host, es, ss, k + 1, |es|, d);
    }
  }
}
