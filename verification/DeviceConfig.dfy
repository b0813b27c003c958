/** Devices as configured: filling in defaults with the automatic slot counter, and what validation
    accepts (parseconf.c). Values; the code that computes them is in module Configuration. */
module DeviceConfig {
  import opened Common
  import opened Aoe
  import opened Lba

  /** struct ifst: name, MTU and reference count. `logOK` says that its log target exists. */
  class Interface {
    const name: string
    const mtu: int
    const logOK: bool
    var refcnt: int

    constructor (name: string, mtu: int, logOK: bool)
      ensures this.name == name && this.mtu == mtu && this.logOK == logOK && refcnt == 0
    {
      this.name, this.mtu, this.logOK := name, mtu, logOK;
      refcnt := 0;
    }
  }

  /** struct aclhdr: name and reference count. `logOK` says that it names no log target that does not exist. */
  class AclHeader {
    const name: string
    const logOK: bool
    var refcnt: int

    constructor (name: string, logOK: bool)
      ensures this.name == name && this.logOK == logOK && refcnt == 0
    {
      this.name, this.logOK := name, logOK;
      refcnt := 0;
    }
  }

  /** The access lists attached to a device. */
  datatype Roles = Roles(wacl: AclHeader?, racl: AclHeader?, cfgsetacl: AclHeader?, cfgracl: AclHeader?)

  /** A device as configured; None, ANY_SHELF, ANY_SLOT, -1 and null stand for unset fields. */
  datatype Dev = Dev(target: Option<string>, shelf: uint16, slot: byte, iface: Interface?,
                     writecache: int, broadcast: int, roles: Roles)

  /** qaoed_devdefaults: the device with its unset fields filled in, and the slot counter after it, an
      8-bit number. */
  function Filled(d: Dev, dflt: Option<Dev>): (Dev, Option<Dev>)
  {
    match dflt
    case None => (d.(writecache := if d.writecache == -1 then 1 else d.writecache,
                     broadcast := if d.broadcast == -1 then 1 else d.broadcast), None)
    case Some(f) =>
      (Dev(d.target,
           if d.shelf == ANY_SHELF then f.shelf else d.shelf,
           if d.slot == ANY_SLOT then f.slot else d.slot,
           if d.iface == null then f.iface else d.iface,
           if d.writecache != -1 then d.writecache else if f.writecache != -1 then f.writecache else 1,
           if d.broadcast != -1 then d.broadcast else if f.broadcast != -1 then f.broadcast else 1,
           Roles(if d.roles.wacl == null then f.roles.wacl else d.roles.wacl,
                 if d.roles.racl == null then f.roles.racl else d.roles.racl,
                 if d.roles.cfgsetacl == null then f.roles.cfgsetacl else d.roles.cfgsetacl,
                 if d.roles.cfgracl == null then f.roles.cfgracl else d.roles.cfgracl)),
       Some(if d.slot == ANY_SLOT then f.(slot := (f.slot + 1) % 256) else f))
  }

  /** qaoed_defaultconfig: all devices in the order of the list. */
  function FilledAll(ds: seq<Dev>, dflt: Option<Dev>): (r: (seq<Dev>, Option<Dev>))
    ensures |r.0| == |ds| && r.1.Some? == dflt.Some?
  {
    if ds == [] then ([], dflt)
    else
      var n := |ds| - 1;
      var (before, dflt') := FilledAll(ds[..n], dflt);
      var (d, dflt'') := Filled(ds[n], dflt');
      (before + [d], dflt'')
  }

  /* ---- Validation ---- */

  /** The same address, and not the same target on another interface. */
  predicate Clash(a: Dev, b: Dev)
  {
    a.slot == b.slot && a.shelf == b.shelf && (a.iface == b.iface || a.target != b.target)
  }

  ghost predicate Compatible(ds: seq<Dev>)
  {
    forall i, j :: 0 <= i < j < |ds| ==> !Clash(ds[i], ds[j])
  }

  /** A device clashes with no other. */
  ghost predicate ClearRow(ds: seq<Dev>, k: nat)
    requires k < |ds|
  {
    forall j :: 0 <= j < |ds| && j != k ==> !Clash(ds[k], ds[j])
  }

  /** The first `n` rows of the comparison are clear. */
  ghost predicate ClearRows(ds: seq<Dev>, n: nat)
    requires n <= |ds|
  {
    n == 0 || (ClearRows(ds, n - 1) && ClearRow(ds, n - 1))
  }

  lemma {:induction false} ClearRowsAll(ds: seq<Dev>, n: nat)
    requires n <= |ds|
    ensures ClearRows(ds, n) <==> forall k :: 0 <= k < n ==> ClearRow(ds, k)
  {
    if n > 0 {
      ClearRowsAll(ds, n - 1);
    }
  }

  /** Comparing every two devices in both orders finds exactly what comparing them once would. */
  lemma CompatibleRows(ds: seq<Dev>)
    ensures Compatible(ds) <==> ClearRows(ds, |ds|)
  {
    ClearRowsAll(ds, |ds|);
    if Compatible(ds) {
      forall k, j | 0 <= k < |ds| && 0 <= j < |ds| && j != k ensures !Clash(ds[k], ds[j]) {
        assert Clash(ds[k], ds[j]) == Clash(ds[j], ds[k]);
      }
    }
    forall i, j | 0 <= i < j < |ds| && ClearRow(ds, i) ensures !Clash(ds[i], ds[j]) {
    }
  }

  lemma RowNotClear(ds: seq<Dev>, k: nat)
    requires k < |ds| && !ClearRow(ds, k)
    ensures !ClearRows(ds, |ds|)
  {
    ClearRowsAll(ds, |ds|);
  }

  predicate Complete(d: Dev)
  {
    d.iface != null && d.slot != ANY_SLOT && d.shelf != ANY_SHELF
  }

  ghost predicate ValidConfig(ds: seq<Dev>)
  {
    (forall i :: 0 <= i < |ds| ==> Complete(ds[i])) && Compatible(ds)
  }

  /* ---- The automatic slots ---- */

  /** Devices among the first `n` whose slot is filled in automatically. */
  function Autos(ds: seq<Dev>, n: nat): (r: nat)
    requires n <= |ds|
    ensures r <= n
  {
    if n == 0 then 0 else Autos(ds, n - 1) + One(ds[n - 1].slot == ANY_SLOT)
  }

  lemma {:induction false} AutosPrefix(ds: seq<Dev>, n: nat, k: nat)
    requires k <= n <= |ds|
    ensures Autos(ds[..n], k) == Autos(ds, k)
    decreases k
  {
    if k > 0 {
      AutosPrefix(ds, n, k - 1);
    }
  }

  lemma {:induction false} AutosMonotone(ds: seq<Dev>, k: nat, n: nat)
    requires k <= n <= |ds|
    ensures Autos(ds, k) <= Autos(ds, n)
  {
    if k < n {
      AutosMonotone(ds, k, n - 1);
    }
  }

  lemma CounterStep(s: nat, a: nat)
    ensures ((s + a) % 256 + 1) % 256 == (s + (a + 1)) % 256
  {
  }

  /** The counter after all devices. */
  lemma {:induction false} CounterAfter(ds: seq<Dev>, f: Dev)
    ensures FilledAll(ds, Some(f)).1 == Some(f.(slot := (f.slot + Autos(ds, |ds|)) % 256))
  {
    if ds != [] {
      var n := |ds| - 1;
      CounterAfter(ds[..n], f);
      AutosPrefix(ds, n, n);
      CounterStep(f.slot, Autos(ds, n));
    }
  }

  lemma {:induction false} FilledAt(ds: seq<Dev>, dflt: Option<Dev>, k: nat)
    requires k < |ds|
    ensures FilledAll(ds, dflt).0[k] == Filled(ds[k], FilledAll(ds[..k], dflt).1).0
    decreases |ds|
  {
    var n := |ds| - 1;
    if k < n {
      FilledAt(ds[..n], dflt, k);
      assert ds[..n][..k] == ds[..k];
    }
  }

  /** The counter before each device and after the last. */
  lemma {:induction false} FilledSteps(ds: seq<Dev>, dflt: Option<Dev>) returns (counters: seq<Option<Dev>>)
    ensures |counters| == |ds| + 1 && counters[0] == dflt && counters[|ds|] == FilledAll(ds, dflt).1
    ensures forall k :: 0 <= k < |ds| ==>
              (FilledAll(ds, dflt).0[k], counters[k + 1]) == Filled(ds[k], counters[k])
  {
    if ds == [] {
      counters := [dflt];
    } else {
      var n := |ds| - 1;
      var before := FilledSteps(ds[..n], dflt);
      counters := before + [FilledAll(ds, dflt).1];
      forall k | 0 <= k < |ds|
        ensures (FilledAll(ds, dflt).0[k], counters[k + 1]) == Filled(ds[k], counters[k])
      {
        if k < n {
          assert counters[k + 1] == before[k + 1] && ds[..n][k] == ds[k];
        }
      }
    }
  }

  /** The counter modulo 256 hands out the slots in turn. */
  lemma {:induction false} SlotAt(ds: seq<Dev>, f: Dev, k: nat)
    requires k < |ds|
    ensures FilledAll(ds, Some(f)).0[k].slot
         == if ds[k].slot == ANY_SLOT then (f.slot + Autos(ds, k)) % 256 else ds[k].slot
  {
    FilledAt(ds, Some(f), k);
    CounterAfter(ds[..k], f);
    AutosPrefix(ds, k, k);
  }

  /** No filled-in slot is the unset value exactly if the counter does not reach it; so an accepted
      configuration never wrapped the counter. */
  lemma {:induction false} NeverWrapsIff(ds: seq<Dev>, f: Dev)
    ensures var filled := FilledAll(ds, Some(f)).0;
            (forall k :: 0 <= k < |ds| ==> filled[k].slot != ANY_SLOT)
            <==> f.slot + Autos(ds, |ds|) <= 255
  {
    var filled := FilledAll(ds, Some(f)).0;
    var n := Autos(ds, |ds|);
    if f.slot + n <= 255 {
      forall k | 0 <= k < |ds| ensures filled[k].slot != ANY_SLOT {
        SlotAt(ds, f, k);
        AutosMonotone(ds, k + 1, |ds|);
      }
    } else {
      var k := NthAuto(ds, |ds|, 255 - f.slot);
      SlotAt(ds, f, k);
      assert filled[k].slot == ANY_SLOT;
    }
  }

  /** The device that gets the automatic slot number `m`. */
  lemma {:induction false} NthAuto(ds: seq<Dev>, n: nat, m: nat) returns (k: nat)
    requires n <= |ds| && m < Autos(ds, n)
    ensures k < n && ds[k].slot == ANY_SLOT && Autos(ds, k) == m
  {
    if Autos(ds, n - 1) > m {
      k := NthAuto(ds, n - 1, m);
    } else {
      k := n - 1;
    }
  }

  /** If validation accepts the filled-in devices, the automatic slots are consecutive from the default
      slot, pairwise different and at most 254. */
  lemma AcceptedSlots(ds: seq<Dev>, f: Dev, i: nat, j: nat)
    requires ValidConfig(FilledAll(ds, Some(f)).0)
    requires i < j < |ds| && ds[i].slot == ANY_SLOT && ds[j].slot == ANY_SLOT
    ensures var filled := FilledAll(ds, Some(f)).0;
            && filled[i].slot == f.slot + Autos(ds, i) < filled[j].slot == f.slot + Autos(ds, j) <= 254
            && (Autos(ds, j) == Autos(ds, i) + 1 ==> filled[j].slot == filled[i].slot + 1)
  {
    var filled := FilledAll(ds, Some(f)).0;
    forall k | 0 <= k < |ds| ensures filled[k].slot != ANY_SLOT {
      assert Complete(filled[k]);
    }
    SlotsInTurn(ds, f, i, j);
  }

  lemma {:induction false} SlotsInTurn(ds: seq<Dev>, f: Dev, i: nat, j: nat)
    requires forall k :: 0 <= k < |ds| ==> FilledAll(ds, Some(f)).0[k].slot != ANY_SLOT
    requires i < j < |ds| && ds[i].slot == ANY_SLOT && ds[j].slot == ANY_SLOT
    ensures FilledAll(ds, Some(f)).0[i].slot == f.slot + Autos(ds, i) < f.slot + Autos(ds, j) <= 254
    ensures FilledAll(ds, Some(f)).0[j].slot == f.slot + Autos(ds, j)
  {
    NeverWrapsIff(ds, f);
    SlotAt(ds, f, i);
    SlotAt(ds, f, j);
    AutosMonotone(ds, i + 1, j);
    AutosMonotone(ds, j + 1, |ds|);
  }

  /** Without a default section no configuration that leaves a slot open is accepted. */
  lemma {:induction false} NoDefaultSection(ds: seq<Dev>, k: nat)
    requires k < |ds|
    ensures FilledAll(ds, None).0[k].slot == ds[k].slot && FilledAll(ds, None).1 == None
    ensures ds[k].slot == ANY_SLOT ==> !ValidConfig(FilledAll(ds, None).0)
    decreases |ds|
  {
    var n := |ds| - 1;
    if k < n {
      NoDefaultSection(ds[..n], k);
    } else if n > 0 {
      NoDefaultSection(ds[..n], 0);
    }
    var filled := FilledAll(ds, None).0;
    assert filled[k].slot == ds[k].slot;
    assert filled[k].slot == ANY_SLOT ==> !Complete(filled[k]);
  }
}
