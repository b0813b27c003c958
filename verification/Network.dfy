/** The sequential code of network.c that the dispatch steps are made of: the linked work queue of a
    device (with the worker's unlinking from devices.c), the two destroy functions and the whole of
    processpacket for one frame. */
module Network {
  import opened Aoe
  import opened Common

  /** A link of a device queue; `owner` is that queue. */
  class QueueEntry<T> {
    const work: T
    ghost const owner: DeviceQueue<T>
    var next: QueueEntry?<T>

    constructor (work: T, ghost owner: DeviceQueue<T>)
      ensures this.work == work && this.owner == owner && next == null
    {
      this.work := work;
      this.owner := owner;
      next := null;
    }
  }

  /** The fields q, qstart and qend of a device. `contents` is the FIFO sequence that they stand for, `spine`
      its links and `repr` all links that it ever had. */
  class DeviceQueue<T> {
    var q: QueueEntry?<T>
    var qstart: QueueEntry?<T>
    var qend: QueueEntry?<T>
    ghost var contents: seq<T>
    ghost var spine: seq<QueueEntry<T>>
    ghost var repr: set<QueueEntry<T>>

    ghost predicate Valid()
      reads this, repr
    {
      && (forall x :: x in repr ==> x.owner == this)
      && (forall i :: 0 <= i < |spine| ==> spine[i] in repr)
      && |spine| == |contents|
      && (forall i :: 0 <= i < |spine| ==> spine[i].work == contents[i])
      && (forall i, j :: 0 <= i < j < |spine| ==> spine[i] != spine[j])
      && (forall i, j :: 0 <= i < j < |spine| && j == i + 1 ==> spine[i].next == spine[j])
      && qstart == q
      && (if spine == [] then q == null && qend == null
          else q == spine[0] && qend == spine[|spine| - 1] && qend.next == null)
    }

    /** qaoed_startworker: the initial values for the queue. */
    constructor ()
      ensures Valid() && contents == [] && repr == {}
    {
      q, qstart, qend := null, null, null;
      contents, spine, repr := [], [], {};
    }

    /** insertwork. Its third case, a first entry without a last one, would lose the entry. */
    method InsertWork(work: T)
      requires Valid()
      modifies this, repr
      ensures Valid() && contents == old(contents) + [work]
      ensures forall x :: x in repr ==> x in old(repr) || fresh(x)
    {
      var qe := new QueueEntry(work, this);
      if q == null {
        q := qe;
        qstart := qe;
        qend := qe;
      } else if qend != null {
        qend.next := qe;
        qend := qe;
      } else {
        assert false;
      }
      contents, spine, repr := contents + [work], spine + [qe], repr + {qe};
    }

    /** The unlinking in the worker loop. */
    method Unlink() returns (work: Option<T>)
      requires Valid()
      modifies this
      ensures Valid()
      ensures if old(contents) == [] then work == None && contents == []
              else work == Some(old(contents)[0]) && contents == old(contents)[1..]
      ensures repr == old(repr)
    {
      work := None;
      if q != null {
        ghost var s := spine;
        assert q == qend ==> |s| == 1;
        assert forall i :: 0 <= i < |s| - 1 ==> s[1..][i] == s[i + 1];
        assert |s| > 1 ==> q.next == s[1];
        work := Some(q.work);
        if q == qend {
          qend := null;
        }
        if q == qstart {
          qstart := q.next;
        }
        q := q.next;
        contents, spine := contents[1..], spine[1..];
        assert forall i :: 0 <= i < |spine| ==> spine[i] == s[i + 1];
        assert |s| == 1 ==> spine == [];
      }
    }
  }

  /** struct pkt; `frees` counts how often the buffer was given back. */
  class Packet {
    var refcount: int
    ghost var frees: nat

    constructor ()
      ensures refcount == 1 && frees == 0
    {
      refcount, frees := 1, 0;
    }

    /** qaoed_pktdestroy; the result 0 says that this was the last reference. */
    method Destroy() returns (r: int)
      requires frees == 0
      modifies this
      ensures refcount == old(refcount) - 1
      ensures if old(refcount) <= 1 then r == 0 && frees == 1 else r == 1 && frees == 0
    {
      refcount := refcount - 1;
      if refcount < 1 {
        frees := frees + 1;
        r := 0;
      } else {
        r := 1;
      }
    }
  }

  /** struct workentry */
  class WorkEntry {
    const frame: Frame
    var rawbuf: Packet?
    var refcount: int
    ghost var frees: nat

    constructor (packet: Packet, frame: Frame)
      ensures rawbuf == packet && this.frame == frame && refcount == 1 && frees == 0
    {
      this.frame := frame;
      rawbuf := packet;
      refcount, frees := 1, 0;
    }

    /** qaoed_workdestroy without interference: drops one reference of the packet, if there is one, and one
        of the entry; whichever reaches zero is freed, and rawbuf is cleared if the packet was. */
    method Destroy()
      requires frees == 0 && (rawbuf != null ==> rawbuf.frees == 0)
      modifies this, rawbuf
      ensures refcount == old(refcount) - 1 && frees == if old(refcount) <= 1 then 1 else 0
      ensures var p := old(rawbuf);
              if p == null then rawbuf == null
              else
                && p.refcount == old(rawbuf.refcount) - 1
                && p.frees == (if old(rawbuf.refcount) <= 1 then 1 else 0)
                && rawbuf == if old(rawbuf.refcount) <= 1 then null else p
    {
      if rawbuf != null {
        var r := rawbuf.Destroy();
        if r == 0 {
          rawbuf := null;
        }
      }
      refcount := refcount - 1;
      if refcount < 1 {
        frees := frees + 1;
      }
    }
  }

  /** qaoed_workdestroy may be called without a work entry. */
  method WorkDestroy(work: WorkEntry?)
    requires work != null ==> work.frees == 0 && (work.rawbuf != null ==> work.rawbuf.frees == 0)
    modifies work, if work == null then null else work.rawbuf
    ensures work != null ==>
              work.refcount == old(work.refcount) - 1 && work.frees == if old(work.refcount) <= 1 then 1 else 0
  {
    if work != null {
      work.Destroy();
    }
  }

  /** The part of struct aoedev that dispatching uses. */
  class Device {
    const shelf: uint16
    const slot: nat
    const queue: DeviceQueue<WorkEntry>

    constructor (shelf: uint16, slot: nat)
      ensures this.shelf == shelf && this.slot == slot
      ensures fresh(queue) && queue.Valid() && queue.contents == [] && queue.repr == {}
    {
      this.shelf, this.slot := shelf, slot;
      queue := new DeviceQueue();
    }

    predicate Addressed(f: Frame)
    {
      shelf == f.shelf && slot == f.slot
    }
  }

  /** No two places of the list have the same queue. */
  ghost predicate Apart(devices: seq<Device>)
  {
    forall i, j :: 0 <= i < j < |devices| ==> devices[i].queue != devices[j].queue
  }

  /** The queues of the devices are well formed and lie, with their links, in the given region. */
  ghost predicate Within(devices: seq<Device>, region: set<object>)
    reads region
  {
    forall i :: 0 <= i < |devices| ==>
                  devices[i].queue in region && devices[i].queue.repr <= region && devices[i].queue.Valid()
  }

  /** How often the two loops of processpacket queue a frame on a device. */
  function Copies(d: Device, f: Frame): nat
  {
    One(d.Addressed(f)) + One(IsBroadcast(f))
  }

  function AddressedBefore(devices: seq<Device>, f: Frame, n: nat): nat
    requires n <= |devices|
  {
    if n == 0 then 0 else AddressedBefore(devices, f, n - 1) + One(devices[n - 1].Addressed(f))
  }

  function TotalCopies(devices: seq<Device>, f: Frame): nat
  {
    AddressedBefore(devices, f, |devices|) + if IsBroadcast(f) then |devices| else 0
  }

  function Repeat(w: WorkEntry, n: nat): (r: seq<WorkEntry>)
    ensures |r| == n && forall i :: 0 <= i < n ==> r[i] == w
  {
    if n == 0 then [] else [w] + Repeat(w, n - 1)
  }

  lemma {:induction false} RepeatMore(w: WorkEntry, n: nat)
    ensures Repeat(w, n + 1) == Repeat(w, n) + [w]
  {
    if n > 0 {
      RepeatMore(w, n - 1);
    }
  }

  /** The body of the dispatch loops. */
  method Hand(device: Device, w: WorkEntry, packet: Packet)
    requires w.rawbuf == packet && device.queue.Valid()
    modifies device.queue, device.queue.repr, w`refcount, packet`refcount
    ensures device.queue.Valid() && device.queue.contents == old(device.queue.contents) + [w]
    ensures forall x :: x in device.queue.repr ==> x in old(device.queue.repr) || fresh(x)
    ensures w.refcount == old(w.refcount) + 1 && packet.refcount == old(packet.refcount) + 1
  {
    w.refcount := w.refcount + 1;
    w.rawbuf.refcount := w.rawbuf.refcount + 1;
    device.queue.InsertWork(w);
  }

  /** The same for the device at a place of the list: the other queues are not touched. */
  method HandTo(devices: seq<Device>, i: nat, ghost region: set<object>, w: WorkEntry, packet: Packet)
      returns (ghost grown: set<object>)
    requires Apart(devices) && Within(devices, region) && i < |devices|
    requires w.rawbuf == packet && w !in region && packet !in region
    modifies devices[i].queue, devices[i].queue.repr, w`refcount, packet`refcount
    ensures Within(devices, grown) && region <= grown && fresh(grown - region)
    ensures devices[i].queue.contents == old(devices[i].queue.contents) + [w]
    ensures forall j :: 0 <= j < |devices| && j != i ==> devices[j].queue.contents == old(devices[j].queue.contents)
    ensures w.refcount == old(w.refcount) + 1 && packet.refcount == old(packet.refcount) + 1
  {
    Hand(devices[i], w, packet);
    grown := region + devices[i].queue.repr;
    forall j | 0 <= j < |devices| && j != i
      ensures devices[j].queue.Valid() && devices[j].queue.contents == old(devices[j].queue.contents)
      ensures devices[j].queue.repr <= region
    {
      assert devices[j].queue != devices[i].queue;
    }
  }

  /** One round of the first loop. */
  method HandIf(devices: seq<Device>, i: nat, ghost region: set<object>, w: WorkEntry, packet: Packet, f: Frame)
      returns (ghost grown: set<object>)
    requires Apart(devices) && Within(devices, region) && i < |devices|
    requires w.rawbuf == packet && w !in region && packet !in region
    modifies devices[i].queue, devices[i].queue.repr, w`refcount, packet`refcount
    ensures Within(devices, grown) && region <= grown && fresh(grown - region)
    ensures devices[i].queue.contents == old(devices[i].queue.contents) + Repeat(w, One(devices[i].Addressed(f)))
    ensures forall j :: 0 <= j < |devices| && j != i ==> devices[j].queue.contents == old(devices[j].queue.contents)
    ensures w.refcount == old(w.refcount) + One(devices[i].Addressed(f))
    ensures packet.refcount == old(packet.refcount) + One(devices[i].Addressed(f))
  {
    grown := region;
    if devices[i].shelf == f.shelf && devices[i].slot == f.slot {
      grown := HandTo(devices, i, region, w, packet);
      assert Repeat(w, 1) == [w];
    }
  }

  /** The loop over the devices with the frame's address. */
  method HandToAddressed(devices: seq<Device>, ghost region: set<object>, w: WorkEntry, packet: Packet, f: Frame)
      returns (ghost grown: set<object>)
    requires Apart(devices) && Within(devices, region)
    requires w.rawbuf == packet && w !in region && packet !in region
    modifies region, w`refcount, packet`refcount
    ensures Within(devices, grown) && region <= grown && fresh(grown - region)
    ensures w.refcount == old(w.refcount) + AddressedBefore(devices, f, |devices|)
    ensures packet.refcount == old(packet.refcount) + AddressedBefore(devices, f, |devices|)
    ensures forall j :: 0 <= j < |devices| ==>
              devices[j].queue.contents == old(devices[j].queue.contents) + Repeat(w, One(devices[j].Addressed(f)))
  {
    grown := region;
    for i := 0 to |devices|
      invariant Within(devices, grown) && region <= grown && fresh(grown - region)
      invariant w.refcount == old(w.refcount) + AddressedBefore(devices, f, i)
      invariant packet.refcount == old(packet.refcount) + AddressedBefore(devices, f, i)
      invariant forall j :: 0 <= j < i ==>
                  devices[j].queue.contents == old(devices[j].queue.contents) + Repeat(w, One(devices[j].Addressed(f)))
      invariant forall j :: i <= j < |devices| ==> devices[j].queue.contents == old(devices[j].queue.contents)
    {
      grown := HandIf(devices, i, grown, w, packet, f);
    }
  }

  /** The loop over all devices. */
  method HandToAll(devices: seq<Device>, ghost region: set<object>, w: WorkEntry, packet: Packet)
      returns (ghost grown: set<object>)
    requires Apart(devices) && Within(devices, region)
    requires w.rawbuf == packet && w !in region && packet !in region
    modifies region, w`refcount, packet`refcount
    ensures Within(devices, grown) && region <= grown && fresh(grown - region)
    ensures w.refcount == old(w.refcount) + |devices|
    ensures packet.refcount == old(packet.refcount) + |devices|
    ensures forall j :: 0 <= j < |devices| ==> devices[j].queue.contents == old(devices[j].queue.contents) + [w]
  {
    grown := region;
    for i := 0 to |devices|
      invariant Within(devices, grown) && region <= grown && fresh(grown - region)
      invariant w.refcount == old(w.refcount) + i && packet.refcount == old(packet.refcount) + i
      invariant forall j :: 0 <= j < i ==> devices[j].queue.contents == old(devices[j].queue.contents) + [w]
      invariant forall j :: i <= j < |devices| ==> devices[j].queue.contents == old(devices[j].queue.contents)
    {
      grown := HandTo(devices, i, grown, w, packet);
    }
  }

  /** Both loops. */
  method HandOut(devices: seq<Device>, ghost region: set<object>, w: WorkEntry, packet: Packet, f: Frame)
      returns (ghost grown: set<object>)
    requires Apart(devices) && Within(devices, region)
    requires w.rawbuf == packet && w !in region && packet !in region
    modifies region, w`refcount, packet`refcount
    ensures Within(devices, grown) && region <= grown && fresh(grown - region)
    ensures w.refcount == old(w.refcount) + TotalCopies(devices, f)
    ensures packet.refcount == old(packet.refcount) + TotalCopies(devices, f)
    ensures forall j :: 0 <= j < |devices| ==>
              devices[j].queue.contents == old(devices[j].queue.contents) + Repeat(w, Copies(devices[j], f))
  {
    grown := HandToAddressed(devices, region, w, packet, f);
    if f.shelf == 0xffff && f.slot == 0x00ff {
      label First:
      grown := HandToAll(devices, grown, w, packet);
      forall j | 0 <= j < |devices|
        ensures devices[j].queue.contents == old(devices[j].queue.contents) + Repeat(w, Copies(devices[j], f))
      {
        RepeatMore(w, One(devices[j].Addressed(f)));
        assert devices[j].queue.contents == old@First(devices[j].queue.contents) + [w];
      }
    }
  }

  /** The three tests on a frame. */
  method Checks(host: Endian, f: Frame) returns (ok: bool)
    ensures ok <==> Accepts(host, f)
  {
    ok := !(f.len < HDR_LEN || f.proto != ETH_P_AOE || MarkedResponse(host, f));
  }

  /** processpacket for one frame, not interrupted. A rejected frame only drops the packet reference
      that it came with. An accepted one is appended to every queue once for each loop that selects
      the device, and to no other; the work entry is left with one reference for each queue entry (and
      freed if there is none), which together take the place of the frame's packet reference. The queues
      and their links lie in `region`, and in `grown` afterwards. */
  method ProcessPacket(host: Endian, devices: seq<Device>, ghost region: set<object>, packet: Packet, f: Frame)
      returns (work: WorkEntry?, ghost grown: set<object>)
    requires Apart(devices) && Within(devices, region) && packet !in region
    requires packet.frees == 0 && packet.refcount >= 1
    modifies packet, region
    ensures Within(devices, grown) && region <= grown && fresh(grown - region)
    ensures work != null <==> Accepts(host, f)
    ensures var copies := if work == null then 0 else TotalCopies(devices, f);
            && packet.refcount == old(packet.refcount) - 1 + copies
            && packet.frees == One(packet.refcount < 1)
            && (work != null ==>
                  && fresh(work) && work.frame == f
                  && work.refcount == copies && work.frees == One(copies == 0)
                  && (packet.frees == 0 ==> work.rawbuf == packet))
    ensures work == null ==>
              forall i :: 0 <= i < |devices| ==> devices[i].queue.contents == old(devices[i].queue.contents)
    ensures work != null ==> forall i :: 0 <= i < |devices| ==>
              devices[i].queue.contents == old(devices[i].queue.contents) + Repeat(work, Copies(devices[i], f))
  {
    grown := region;
    var ok := Checks(host, f);
    if !ok {
      var r := packet.Destroy();
      return null, region;
    }
    work, grown := DispatchFrame(devices, region, packet, f);
  }

  /** The accepted case. */
  method DispatchFrame(devices: seq<Device>, ghost region: set<object>, packet: Packet, f: Frame)
      returns (w: WorkEntry, ghost grown: set<object>)
    requires Apart(devices) && Within(devices, region) && packet !in region
    requires packet.frees == 0 && packet.refcount >= 1
    modifies packet, region
    ensures Within(devices, grown) && region <= grown && fresh(grown - region)
    ensures fresh(w) && w.frame == f
    ensures w.refcount == TotalCopies(devices, f) && w.frees == One(w.refcount == 0)
    ensures packet.refcount == old(packet.refcount) - 1 + w.refcount && packet.frees == One(packet.refcount < 1)
    ensures packet.frees == 0 ==> w.rawbuf == packet
    ensures forall i :: 0 <= i < |devices| ==>
              devices[i].queue.contents == old(devices[i].queue.contents) + Repeat(w, Copies(devices[i], f))
  {
    w := new WorkEntry(packet, f);
    grown := HandOut(devices, region, w, packet, f);
    label Handed:
    w.Destroy();
    forall i | 0 <= i < |devices|
      ensures devices[i].queue.Valid() && devices[i].queue.contents == old@Handed(devices[i].queue.contents)
      ensures devices[i].queue.repr <= grown
    {
      assert devices[i].queue in grown;
    }
  }
}
