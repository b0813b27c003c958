/** The dispatch runtime and the request engine together: what the file of a device is in every
    interleaving of listeners, dispatchers and workers. */
module Daemon {
  import opened Aoe
  import opened Dispatch
  import opened DispatchTheorems
  import D = DispatchDrain
  import F = DispatchFlow
  import E = Engine
  import B = BlockStore

  /** The jobs of a worker; `job` gives the packet that a work entry holds, with the access lists and the
      outcome of the system call at the time when the worker handles it. */
  function Jobs(ws: seq<Work>, job: Work -> E.Job): seq<E.Job>
  {
    if ws == [] then [] else Jobs(ws[..|ws| - 1], job) + [job(ws[|ws| - 1])]
  }

  /** Every packet is as long as its header says, and every write that is carried out is complete. */
  ghost predicate Sane(job: Work -> E.Job)
  {
    forall w :: job(w).Valid() && (job(w).pkt.IsAta() ==> B.Complete(job(w).Ata()))
  }

  lemma {:induction false} JobsSane(ws: seq<Work>, job: Work -> E.Job)
    requires Sane(job)
    ensures |Jobs(ws, job)| == |ws| && forall i :: 0 <= i < |ws| ==> Jobs(ws, job)[i] == job(ws[i])
    ensures E.ValidJobs(Jobs(ws, job))
    ensures forall i :: 0 <= i < |ws| && Jobs(ws, job)[i].pkt.IsAta() ==> B.Complete(Jobs(ws, job)[i].Ata())
  {
    if ws == [] {
    } else {
      JobsSane(ws[..|ws| - 1], job);
    }
  }

  /** The sector map of the writes among these work entries, in this order. */
  ghost predicate IsSectorMap(disk: seq<bv8>, initial: seq<bv8>, ws: seq<Work>, job: Work -> E.Job)
    requires Sane(job)
  {
    JobsSane(ws, job);
    E.EventsValid(Jobs(ws, job));
    forall k: nat :: B.Sector(disk, k) == B.Latest(initial, E.AtaEvents(Jobs(ws, job)), k)
  }

  lemma WorkerKeepsSectorMap(dev: E.Unit, img: E.Image, ws: seq<Work>, job: Work -> E.Job)
    requires img.conf.Valid() && Sane(job) && E.ValidJobs(Jobs(ws, job))
    ensures IsSectorMap(E.Run(dev, img, Jobs(ws, job)).disk, img.disk, ws, job)
  {
    var jobs := Jobs(ws, job);
    JobsSane(ws, job);
    E.RunProjects(dev, img, jobs);
    E.AllComplete(jobs);
    forall k: nat
      ensures B.Sector(E.Run(dev, img, jobs).disk, k) == B.Latest(img.disk, E.AtaEvents(jobs), k)
    {
      B.FileRefinesSectorMap(dev.size, img.disk, E.AtaEvents(jobs), k);
    }
  }

  /** The file of a device whose worker has handled these entries. */
  ghost function FileOf(dev: E.Unit, img: E.Image, ws: seq<Work>, job: Work -> E.Job): seq<bv8>
    requires img.conf.Valid() && Sane(job)
  {
    JobsSane(ws, job);
    E.Run(dev, img, Jobs(ws, job)).disk
  }

  /** In every interleaving the file of a device is the sector map of a prefix of the writes that were
      dispatched to it, in the order of dispatch. */
  lemma FileFollowsDispatch(s: State, d: nat, dev: E.Unit, img: E.Image, job: Work -> E.Job)
    requires Reachable(s) && d < |s.threads| && s.threads[d].role.Worker?
    requires img.conf.Valid() && Sane(job)
    ensures var r := s.threads[d].role;
            && |r.processed| <= |r.dispatched|
            && IsSectorMap(FileOf(dev, img, r.processed, job), img.disk, r.dispatched[..|r.processed|], job)
  {
    var r := s.threads[d].role;
    Fifo(s, d);
    assert r.dispatched[..|r.processed|] == r.processed;
    JobsSane(r.processed, job);
    WorkerKeepsSectorMap(dev, img, r.processed, job);
  }

  /** And when the system has drained, of all of them. */
  lemma FileAfterDrain(s: State, sched: seq<nat>, d: nat, dev: E.Unit, img: E.Image, job: Work -> E.Job)
    requires Reachable(s) && D.Schedule(s, sched) && D.Quiet(D.After(s, sched))
    requires d < |D.After(s, sched).threads| && D.After(s, sched).threads[d].role.Worker?
    requires img.conf.Valid() && Sane(job)
    ensures var r := D.After(s, sched).threads[d].role;
            IsSectorMap(FileOf(dev, img, r.processed, job), img.disk, r.dispatched, job)
  {
    D.Drain(s, sched);
    var r := D.After(s, sched).threads[d].role;
    assert r.processed == r.dispatched;
    JobsSane(r.processed, job);
    WorkerKeepsSectorMap(dev, img, r.processed, job);
  }

  /** From the wire to the file: where no thread can move, the file of a device is the sector map of the requests
      that it processed, and those of each listener are exactly the frames that the listener received since the
      device was started, pass the three tests and are addressed to the device, in their order. */
  lemma FileOfReceived(host: Endian, pre: seq<Step>, post: seq<Step>, d: nat,
                       dev: E.Unit, img: E.Image, job: Work -> E.Job)
    requires F.IsWorker(Run(Init(host), pre), d) && D.Quiet(Run(Init(host), pre + post))
    requires img.conf.Valid() && Sane(job)
    ensures F.IsWorker(Run(Init(host), pre + post), d)
    ensures var r := Run(Init(host), pre + post).threads[d].role;
            && IsSectorMap(FileOf(dev, img, r.processed, job), img.disk, r.processed, job)
            && forall i: nat :: F.Received(host, pre, i) == [] ==>
                 F.FramesOf(F.From(r.processed, i))
                 == F.Addressing(F.WantedOf(host, F.Received(host, pre + post, i)), r.shelf, r.slot)
  {
    F.Grows(host, pre, post, d);
    var r := Run(Init(host), pre + post).threads[d].role;
    JobsSane(r.processed, job);
    WorkerKeepsSectorMap(dev, img, r.processed, job);
    forall i: nat | F.Received(host, pre, i) == []
      ensures F.FramesOf(F.From(r.processed, i))
           == F.Addressing(F.WantedOf(host, F.Received(host, pre + post, i)), r.shelf, r.slot)
    {
      F.Delivered(host, pre, post, i, d);
    }
  }
}
