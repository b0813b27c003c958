/** What the registry keeps over every run of API requests. */
module RegistryTheorems {
  import opened Common
  import opened Aoe
  import opened DeviceConfig
  import opened Registry
  import opened RegistryMeaning

  /* ---- Pointers ---- */

  /** The pointers of a device lead to known objects. */
  ghost predicate Closed(d: Dev, ints: set<Interface>, lists: set<AclHeader>)
  {
    && (d.iface == null || d.iface in ints)
    && (d.roles.wacl == null || d.roles.wacl in lists)
    && (d.roles.racl == null || d.roles.racl in lists)
    && (d.roles.cfgsetacl == null || d.roles.cfgsetacl in lists)
    && (d.roles.cfgracl == null || d.roles.cfgracl in lists)
  }

  ghost predicate ClosedConf(c: Conf, ints: set<Interface>, lists: set<AclHeader>)
  {
    && (forall k :: 0 <= k < |c.devices| ==> Closed(c.devices[k], ints, lists))
    && (c.dflt.Some? ==> Closed(c.dflt.value, ints, lists))
    && (forall k :: 0 <= k < |c.ifaces| ==> c.ifaces[k] in ints)
    && (forall k :: 0 <= k < |c.acls| ==> c.acls[k] in lists)
  }

  lemma SetRolesClosed(c: Conf, k: nat, names: Names, ints: set<Interface>, lists: set<AclHeader>)
    requires ClosedConf(c, ints, lists) && k < |c.devices|
    ensures var (refs, roles) := SetRoles(c.acls, c.refs, c.devices[k].roles, names);
            ClosedConf(c.(devices := c.devices[k := c.devices[k].(roles := roles)], refs := refs), ints, lists)
  {
  }

  lemma {:induction false} SetAclsClosed(c: Conf, info: Info, names: Names, n: nat,
                                         ints: set<Interface>, lists: set<AclHeader>)
    requires ClosedConf(c, ints, lists) && n <= |c.devices|
    ensures ClosedConf(SetAcls(c, info, names, n), ints, lists)
  {
    if n > 0 {
      SetAclsClosed(c, info, names, n - 1, ints, lists);
      SetRolesClosed(SetAcls(c, info, names, n - 1), n - 1, names, ints, lists);
    }
  }

  /** One device of a SETACL request. */
  ghost predicate SetStep(c: Conf, info: Info, names: Names, k: nat, c': Conf)
  {
    k < |c.devices|
    && var d := c.devices[k];
       var (refs, roles) := SetRoles(c.acls, c.refs, d.roles, names);
       c' == if Matches(c.ifaces, d, info) then c.(devices := c.devices[k := d.(roles := roles)], refs := refs) else c
  }

  lemma SetAclsStep(c: Conf, info: Info, names: Names, k: nat, ints: set<Interface>, lists: set<AclHeader>)
    requires ClosedConf(c, ints, lists) && k < |c.devices|
    ensures SetStep(SetAcls(c, info, names, k), info, names, k, SetAcls(c, info, names, k + 1))
    ensures ClosedConf(SetAcls(c, info, names, k), ints, lists)
    ensures SetAcls(c, info, names, k).devices[k] == c.devices[k]
  {
    SetAclsClosed(c, info, names, k, ints, lists);
  }

  /** The values that a SETACL request leads through. */
  lemma SetAclsSteps(c: Conf, info: Info, names: Names, ints: set<Interface>, lists: set<AclHeader>)
      returns (cs: seq<Conf>)
    requires ClosedConf(c, ints, lists)
    ensures |cs| == |c.devices| + 1 && cs[0] == c && cs[|c.devices|] == SetAcl(c, info, names).0
    ensures forall k :: 0 <= k < |c.devices| ==>
              ClosedConf(cs[k], ints, lists) && SetStep(cs[k], info, names, k, cs[k + 1])
    ensures forall k :: 0 <= k < |c.devices| ==> (FailsAt(cs[k], info, names, k) <==> FailsAt(c, info, names, k))
  {
    var n := |c.devices|;
    cs := seq(n + 1, k requires 0 <= k <= n => SetAcls(c, info, names, k));
    forall k | 0 <= k < n
      ensures ClosedConf(cs[k], ints, lists) && SetStep(cs[k], info, names, k, cs[k + 1])
      ensures FailsAt(cs[k], info, names, k) <==> FailsAt(c, info, names, k)
    {
      SetAclsStep(c, info, names, k, ints, lists);
    }
  }

  /** The device at a place matches, and a name is unknown. */
  predicate FailsAt(c: Conf, info: Info, names: Names, k: nat)
  {
    k < |c.devices| && Matches(c.ifaces, c.devices[k], info) && !AllKnown(c.acls, names)
  }

  /** One of the first `n` steps fails. */
  predicate Fails(cs: seq<Conf>, info: Info, names: Names, n: nat)
    requires n <= |cs|
  {
    n > 0 && (Fails(cs, info, names, n - 1) || FailsAt(cs[n - 1], info, names, n - 1))
  }

  lemma {:induction false} FailsHits(c: Conf, cs: seq<Conf>, info: Info, names: Names, n: nat)
    requires n <= |c.devices| < |cs|
    requires forall k :: 0 <= k < |c.devices| ==> (FailsAt(cs[k], info, names, k) <==> FailsAt(c, info, names, k))
    ensures Fails(cs, info, names, n) <==> Hits(c.ifaces, c.devices, info, n) > 0 && !AllKnown(c.acls, names)
  {
    if n > 0 {
      FailsHits(c, cs, info, names, n - 1);
    }
  }

  /** Inside processINTERFACE_DEL: the configuration so far, the place in its interface list, and the
      result so far. */
  datatype Progress = Progress(c: Conf, p: nat, o: Outcome)

  /** One interface: it is removed from its place, or kept. */
  ghost predicate KeptStep(s: Progress, name: string, stops: set<Interface>, s': Progress)
  {
    s.p < |s.c.ifaces|
    && var i := s.c.ifaces[s.p];
       s' == if !Candidate(s.c.uses, i, name) then s.(p := s.p + 1)
             else if i in stops then Progress(s.c.(ifaces := Without(s.c.ifaces, s.p)), s.p, Done)
             else Progress(s.c, s.p + 1, Failure)
  }

  /** The state when the first `k` interfaces have been looked at. */
  function PartlyKept(c: Conf, name: string, stops: set<Interface>, k: nat): Progress
    requires k <= |c.ifaces|
  {
    var (kept, o) := Kept(c.uses, c.ifaces[..k], name, stops);
    Progress(c.(ifaces := kept + c.ifaces[k..]), |kept|, o)
  }

  lemma PartlyKeptEnds(c: Conf, name: string, stops: set<Interface>)
    ensures PartlyKept(c, name, stops, 0) == Progress(c, 0, Failure)
    ensures var s := PartlyKept(c, name, stops, |c.ifaces|); (s.c, s.o) == DelInterface(c, name, stops)
  {
    assert [] + c.ifaces[0..] == c.ifaces && c.ifaces[..|c.ifaces|] == c.ifaces;
    var kept := Kept(c.uses, c.ifaces, name, stops).0;
    assert kept + c.ifaces[|c.ifaces|..] == kept;
  }

  lemma PartlyKeptStep(c: Conf, name: string, stops: set<Interface>, k: nat)
    requires k < |c.ifaces|
    ensures KeptStep(PartlyKept(c, name, stops, k), name, stops, PartlyKept(c, name, stops, k + 1))
  {
    var (kept, o) := Kept(c.uses, c.ifaces[..k], name, stops);
    var i, rest := c.ifaces[k], c.ifaces[k + 1..];
    assert c.ifaces[..k + 1][..k] == c.ifaces[..k];
    assert c.ifaces[k..] == [i] + rest;
    assert kept + ([i] + rest) == (kept + [i]) + rest;
    assert Without(kept + ([i] + rest), |kept|) == kept + rest;
  }

  lemma PartlyKeptClosed(c: Conf, name: string, stops: set<Interface>, k: nat,
                         ints: set<Interface>, lists: set<AclHeader>)
    requires ClosedConf(c, ints, lists) && k <= |c.ifaces|
    ensures ClosedConf(PartlyKept(c, name, stops, k).c, ints, lists)
  {
    var kept := Kept(c.uses, c.ifaces[..k], name, stops).0;
    forall m | 0 <= m < |kept| ensures kept[m] in ints {
      KeptSubset(c.uses, c.ifaces[..k], name, stops, kept[m]);
      assert kept[m] in c.ifaces;
    }
  }

  /** The states that deleting interfaces leads through. */
  lemma KeptSteps(c: Conf, name: string, stops: set<Interface>, ints: set<Interface>, lists: set<AclHeader>)
      returns (ss: seq<Progress>)
    requires ClosedConf(c, ints, lists)
    ensures |ss| == |c.ifaces| + 1 && ss[0] == Progress(c, 0, Failure)
    ensures (ss[|c.ifaces|].c, ss[|c.ifaces|].o) == DelInterface(c, name, stops)
    ensures forall k :: 0 <= k < |ss| - 1 ==>
              ClosedConf(ss[k].c, ints, lists) && KeptStep(ss[k], name, stops, ss[k + 1])
    ensures forall k :: 0 <= k < |ss| ==> ss[k].p + (|ss| - 1 - k) == |ss[k].c.ifaces|
  {
    ss := seq(|c.ifaces| + 1, k requires 0 <= k <= |c.ifaces| => PartlyKept(c, name, stops, k));
    PartlyKeptEnds(c, name, stops);
    forall k | 0 <= k < |ss| - 1
      ensures ClosedConf(ss[k].c, ints, lists) && KeptStep(ss[k], name, stops, ss[k + 1])
    {
      PartlyKeptStep(c, name, stops, k);
      PartlyKeptClosed(c, name, stops, k, ints, lists);
    }
  }

  lemma AddClosed(c: Conf, info: Info, start: Start, ints: set<Interface>, lists: set<AclHeader>)
    requires ClosedConf(c, ints, lists)
    ensures ClosedConf(Add(c, info, start).0, ints, lists)
  {
  }

  lemma DelClosed(v: Version, c: Conf, info: Info, ints: set<Interface>, lists: set<AclHeader>)
    requires ClosedConf(c, ints, lists)
    ensures ClosedConf(Del(v, c, info).0, ints, lists)
  {
  }

  /** No request makes a pointer to an object that was not there. */
  lemma StepClosed(v: Version, c: Conf, step: Step, ints: set<Interface>, lists: set<AclHeader>)
    requires ClosedConf(c, ints, lists)
    ensures ClosedConf(Do(v, c, step).0, ints, lists)
  {
    match step
    case AddTarget(info, start) => AddClosed(c, info, start, ints, lists);
    case DelTarget(info) => DelClosed(v, c, info, ints, lists);
    case SetTargetAcl(info, names) => SetAclsClosed(c, info, names, |c.devices|, ints, lists);
    case DelInt(name, stops) =>
      var c' := Do(v, c, step).0;
      forall k | 0 <= k < |c'.ifaces| ensures c'.ifaces[k] in ints {
        KeptSubset(c.uses, c.ifaces, name, stops, c'.ifaces[k]);
      }
  }

  lemma RunNext(v: Version, c: Conf, steps: seq<Step>, k: nat)
    requires k < |steps| && !Run(v, c, steps[..k]).1
    ensures var (after, o) := Do(v, Run(v, c, steps[..k]).0, steps[k]);
            Run(v, c, steps[..k + 1]) == (after, o == Crashed)
  {
    assert steps[..k + 1][..k] == steps[..k];
  }

  /** After a crash nothing happens. */
  lemma RunCrashed(v: Version, c: Conf, steps: seq<Step>)
    requires steps != [] && Run(v, c, steps[..|steps| - 1]).1
    ensures Run(v, c, steps) == Run(v, c, steps[..|steps| - 1])
  {
  }

  lemma {:induction false} RunStops(v: Version, c: Conf, steps: seq<Step>, k: nat)
    requires k <= |steps| && (k < |steps| ==> Run(v, c, steps[..k]).1)
    ensures Run(v, c, steps) == Run(v, c, steps[..k])
  {
    var n := |steps| - 1;
    if k == |steps| {
      assert steps[..k] == steps;
    } else {
      assert steps[..n][..k] == steps[..k];
      RunStops(v, c, steps[..n], k);
      RunCrashed(v, c, steps);
    }
  }

  /* ---- Addresses ---- */

  lemma AddKeepsCompatible(c: Conf, info: Info, start: Start)
    requires Compatible(c.devices)
    ensures Compatible(Add(c, info, start).0.devices)
  {
    var (c', o) := Add(c, info, start);
    if o == Done {
      var ds, d := c.devices, Filled(Fresh(c.ifaces, info), c.dflt).0;
      assert c'.devices == ds + [d];
      forall i, j | 0 <= i < j < |c'.devices| ensures !Clash(c'.devices[i], c'.devices[j]) {
        if j < |ds| {
          assert !Clash(ds[i], ds[j]);
        } else {
          assert !Clash(ds[i], d);
        }
      }
    }
  }

  lemma WithoutCompatible(ds: seq<Dev>, k: nat)
    requires Compatible(ds) && k < |ds|
    ensures Compatible(Without(ds, k))
  {
    var r := Without(ds, k);
    forall i, j | 0 <= i < j < |r| ensures !Clash(r[i], r[j]) {
      var x, y := if i < k then i else i + 1, if j < k then j else j + 1;
      assert r[i] == ds[x] && r[j] == ds[y];
    }
  }

  lemma SetAclKeepsCompatible(c: Conf, info: Info, names: Names)
    requires Compatible(c.devices)
    ensures Compatible(SetAcl(c, info, names).0.devices)
  {
    var ds := SetAcl(c, info, names).0.devices;
    forall i, j | 0 <= i < j < |ds| ensures !Clash(ds[i], ds[j]) {
      assert !Clash(c.devices[i], c.devices[j]);
      assert ds[i].(roles := c.devices[i].roles) == c.devices[i];
      assert ds[j].(roles := c.devices[j].roles) == c.devices[j];
    }
  }

  /** Over every run, with either version of DEL: two different devices with the same shelf and slot
      have the same target and different interfaces. */
  lemma {:induction false} RunKeepsCompatible(v: Version, c: Conf, steps: seq<Step>)
    requires Compatible(c.devices)
    ensures Compatible(Run(v, c, steps).0.devices)
  {
    if steps != [] {
      var n := |steps| - 1;
      RunKeepsCompatible(v, c, steps[..n]);
      var (before, crashed) := Run(v, c, steps[..n]);
      if !crashed {
        match steps[n]
        case AddTarget(info, start) => AddKeepsCompatible(before, info, start);
        case DelTarget(info) => DelKeepsCompatible(v, before, info);
        case SetTargetAcl(info, names) => SetAclKeepsCompatible(before, info, names);
        case DelInt(name, stops) =>
      }
    }
  }

  lemma DelKeepsCompatible(v: Version, c: Conf, info: Info)
    requires Compatible(c.devices)
    ensures Compatible(Del(v, c, info).0.devices)
  {
    var ds := c.devices;
    if Hits(c.ifaces, ds, info, |ds|) == 1 {
      WithoutCompatible(ds, Hit(c.ifaces, ds, info, |ds|));
    }
  }

  /** So after a load that was validated, in every run. */
  lemma LoadedRun(v: Version, c: Conf, steps: seq<Step>, i: nat, j: nat)
    requires ValidConfig(c.devices)
    requires i < j < |Run(v, StartAll(c, |c.devices|), steps).0.devices|
    ensures var ds := Run(v, StartAll(c, |c.devices|), steps).0.devices;
            ds[i].shelf == ds[j].shelf && ds[i].slot == ds[j].slot ==>
              ds[i].target == ds[j].target && ds[i].iface != ds[j].iface
  {
    RunKeepsCompatible(v, StartAll(c, |c.devices|), steps);
  }

  /** ADD does not repeat the check for unset addresses: the device it lists passes that check exactly if
      the request, or else the default section with its counter, sets both numbers. So a validated
      configuration need not stay valid. */
  lemma AddCompleteIff(c: Conf, info: Info, start: Start)
    requires Add(c, info, start).1 == Done
    ensures var ds := Add(c, info, start).0.devices;
            Complete(ds[|ds| - 1]) <==>
              (info.slot != ANY_SLOT || (c.dflt.Some? && c.dflt.value.slot != ANY_SLOT))
              && (info.shelf != ANY_SHELF || (c.dflt.Some? && c.dflt.value.shelf != ANY_SHELF))
  {
    var (c', o) := Add(c, info, start);
    assert c'.devices[|c.devices|] == Filled(Fresh(c.ifaces, info), c.dflt).0;
  }

  /* ---- DEL ---- */

  ghost predicate OnlyMatch(c: Conf, info: Info, k: nat)
  {
    k < |c.devices| && Meant(c.ifaces, c.devices[k], info)
    && forall i :: 0 <= i < |c.devices| && i != k ==> !Meant(c.ifaces, c.devices[i], info)
  }

  lemma {:induction false} HitsZero(ifaces: seq<Interface>, ds: seq<Dev>, info: Info, n: nat)
    requires n <= |ds|
    ensures Hits(ifaces, ds, info, n) == 0 <==> forall i :: 0 <= i < n ==> !Matches(ifaces, ds[i], info)
  {
    if n > 0 {
      HitsZero(ifaces, ds, info, n - 1);
    }
  }

  /** SETACL fails if and only if it means some device and gives a name that no list has. */
  lemma SetAclFailsIff(c: Conf, info: Info, names: Names)
    ensures SetAcl(c, info, names).1
         == if (exists k :: 0 <= k < |c.devices| && Meant(c.ifaces, c.devices[k], info))
               && (Missing(c.acls, names.wacl) || Missing(c.acls, names.racl)
                   || Missing(c.acls, names.cfgsetacl) || Missing(c.acls, names.cfgracl))
            then Failure else Done
  {
    HitsZero(c.ifaces, c.devices, info, |c.devices|);
    forall k | 0 <= k < |c.devices|
      ensures Matches(c.ifaces, c.devices[k], info) <==> Meant(c.ifaces, c.devices[k], info)
    {
      MatchesMeant(c.ifaces, c.devices[k], info);
    }
    MissingIsUnknown(c.acls, names.wacl);
    MissingIsUnknown(c.acls, names.racl);
    MissingIsUnknown(c.acls, names.cfgsetacl);
    MissingIsUnknown(c.acls, names.cfgracl);
  }

  lemma {:induction false} HitsOne(ifaces: seq<Interface>, ds: seq<Dev>, info: Info, n: nat, k: nat)
    requires k < n <= |ds| && Matches(ifaces, ds[k], info)
    ensures Hits(ifaces, ds, info, n) >= 1
    ensures Hits(ifaces, ds, info, n) == 1
       <==> forall i :: 0 <= i < n && i != k ==> !Matches(ifaces, ds[i], info)
  {
    if n == k + 1 {
      HitsZero(ifaces, ds, info, k);
    } else {
      HitsOne(ifaces, ds, info, n - 1, k);
    }
  }

  /** The request means one place, and this is it. */
  ghost predicate SoleHit(c: Conf, info: Info, h: nat)
  {
    && Hits(c.ifaces, c.devices, info, |c.devices|) == 1
    && h == Hit(c.ifaces, c.devices, info, |c.devices|)
  }

  lemma HitOrNot(c: Conf, info: Info, h: nat, k: nat)
    requires SoleHit(c, info, h) && k < |c.devices|
    ensures h < |c.devices| && (Matches(c.ifaces, c.devices[k], info) <==> k == h)
  {
    HitsOne(c.ifaces, c.devices, info, |c.devices|, h);
  }

  /** DEL removes a device exactly if it is the only one that the request means, and then it removes
      that one and keeps the others in their order; otherwise it fails and changes nothing. As written,
      every deletion then crashes the daemon. */
  lemma DelRemovesOnlyMatch(v: Version, c: Conf, info: Info, k: nat)
    ensures OnlyMatch(c, info, k) ==>
              var (c', o) := Del(v, c, info);
              && c' == c.(devices := Without(c.devices, k), uses := c'.uses)
              && o == if v == AsWritten || c.devices[k].iface == null then Crashed else Done
    ensures (forall i :: 0 <= i < |c.devices| ==> !OnlyMatch(c, info, i)) ==> Del(v, c, info) == (c, Failure)
    ensures Del(AsWritten, c, info).1 == Crashed <==> exists i :: 0 <= i < |c.devices| && OnlyMatch(c, info, i)
  {
    var ds := c.devices;
    var n := |ds|;
    forall i | 0 <= i < n ensures Matches(c.ifaces, ds[i], info) <==> Meant(c.ifaces, ds[i], info) {
      MatchesMeant(c.ifaces, ds[i], info);
    }
    if OnlyMatch(c, info, k) {
      HitsOne(c.ifaces, ds, info, n, k);
      assert Hit(c.ifaces, ds, info, n) == k;
    }
    if Hits(c.ifaces, ds, info, n) == 1 {
      var h := Hit(c.ifaces, ds, info, n);
      HitsOne(c.ifaces, ds, info, n, h);
      assert OnlyMatch(c, info, h);
    } else if i :| 0 <= i < n && OnlyMatch(c, info, i) {
      HitsOne(c.ifaces, ds, info, n, i);
    }
  }

  /** A request that names a listed interface never means two devices, so it is never refused for being
      ambiguous. */
  lemma NamedDelUnambiguous(c: Conf, info: Info)
    requires Compatible(c.devices) && info.ifname != ""
    ensures Hits(c.ifaces, c.devices, info, |c.devices|) <= 1
  {
    var ds := c.devices;
    if Hits(c.ifaces, ds, info, |ds|) > 1 {
      var k := Hit(c.ifaces, ds, info, |ds|);
      HitsOne(c.ifaces, ds, info, |ds|, k);
      var i :| 0 <= i < |ds| && i != k && Matches(c.ifaces, ds[i], info);
      assert Clash(ds[i], ds[k]) && Clash(ds[k], ds[i]);
      assert false;
    }
  }

  /* ---- Interface counts ---- */

  /** Devices that are attached to an interface. */
  function Users(ds: seq<Dev>, i: Interface?): nat
  {
    if ds == [] then 0 else Users(ds[..|ds| - 1], i) + One(ds[|ds| - 1].iface == i)
  }

  /** The count of every listed interface is the number of listed devices attached to it. */
  ghost predicate UsesExact(c: Conf)
  {
    forall i :: i in c.ifaces ==> Get(c.uses, i) == Users(c.devices, i)
  }

  lemma {:induction false} UsersWithout(ds: seq<Dev>, k: nat, i: Interface?)
    requires k < |ds|
    ensures Users(ds, i) == Users(Without(ds, k), i) + One(ds[k].iface == i)
  {
    var n := |ds| - 1;
    if k == n {
      assert Without(ds, k) == ds[..n];
    } else {
      UsersWithout(ds[..n], k, i);
      assert Without(ds, k)[..n - 1] == Without(ds[..n], k);
    }
  }

  lemma {:induction false} UsersSame(ds: seq<Dev>, es: seq<Dev>, i: Interface?)
    requires |ds| == |es| && forall k :: 0 <= k < |ds| ==> ds[k].iface == es[k].iface
    ensures Users(ds, i) == Users(es, i)
  {
    if ds != [] {
      UsersSame(ds[..|ds| - 1], es[..|ds| - 1], i);
    }
  }

  lemma {:induction false} UsersPositive(ds: seq<Dev>, k: nat)
    requires k < |ds|
    ensures Users(ds, ds[k].iface) >= 1
  {
    if k < |ds| - 1 {
      UsersPositive(ds[..|ds| - 1], k);
    }
  }

  lemma {:induction false} KeptSubset(uses: map<Interface?, int>, ifaces: seq<Interface>, name: string,
                                      stops: set<Interface>, i: Interface)
    ensures i in Kept(uses, ifaces, name, stops).0 <==> i in ifaces && !(Candidate(uses, i, name) && i in stops)
  {
    if ifaces != [] {
      var n := |ifaces| - 1;
      KeptSubset(uses, ifaces[..n], name, stops, i);
      assert ifaces == ifaces[..n] + [ifaces[n]];
    }
  }

  lemma AddUses(c: Conf, info: Info, start: Start, i: Interface?)
    requires Get(c.uses, i) == Users(c.devices, i)
    ensures var c' := Add(c, info, start).0; Get(c'.uses, i) == Users(c'.devices, i)
  {
    var (c', o) := Add(c, info, start);
    if o == Done {
      assert c'.devices[..|c.devices|] == c.devices;
    }
  }

  lemma DelUses(v: Version, c: Conf, info: Info, i: Interface?)
    requires Get(c.uses, i) == Users(c.devices, i)
    ensures var (c', o) := Del(v, c, info); o != Crashed ==> Get(c'.uses, i) == Users(c'.devices, i)
  {
    if Del(v, c, info).1 == Done {
      UsersWithout(c.devices, Hit(c.ifaces, c.devices, info, |c.devices|), i);
    }
  }

  lemma StepUses(v: Version, c: Conf, step: Step, i: Interface?)
    requires Get(c.uses, i) == Users(c.devices, i)
    ensures var (c', o) := Do(v, c, step);
            o != Crashed ==> Get(c'.uses, i) == Users(c'.devices, i)
  {
    var c' := Do(v, c, step).0;
    match step
    case AddTarget(info, start) => AddUses(c, info, start, i);
    case DelTarget(info) => DelUses(v, c, info, i);
    case SetTargetAcl(info, names) =>
      SetAclKeepsInterfaces(c, info, names);
      UsersSame(c.devices, c'.devices, i);
    case DelInt(name, stops) =>
  }

  lemma SetAclKeepsInterfaces(c: Conf, info: Info, names: Names)
    ensures |SetAcl(c, info, names).0.devices| == |c.devices|
    ensures forall k :: 0 <= k < |c.devices| ==> c.devices[k].iface == SetAcl(c, info, names).0.devices[k].iface
  {
    var ds := SetAcl(c, info, names).0.devices;
    forall k | 0 <= k < |c.devices| ensures c.devices[k].iface == ds[k].iface {
      assert ds[k].(roles := c.devices[k].roles) == c.devices[k];
    }
  }

  lemma StepShrinksInterfaces(v: Version, c: Conf, step: Step, i: Interface)
    requires i in Do(v, c, step).0.ifaces
    ensures i in c.ifaces
  {
    if step.DelInt? {
      KeptSubset(c.uses, c.ifaces, step.name, step.stops, i);
    }
  }

  lemma StepUsesExact(v: Version, c: Conf, step: Step)
    requires UsesExact(c) && Do(v, c, step).1 != Crashed
    ensures UsesExact(Do(v, c, step).0)
  {
    var (c', o) := Do(v, c, step);
    forall i | i in c'.ifaces ensures Get(c'.uses, i) == Users(c'.devices, i) {
      StepShrinksInterfaces(v, c, step, i);
      StepUses(v, c, step, i);
    }
  }

  lemma {:induction false} StartAllUses(c: Conf, n: nat, i: Interface?)
    requires n <= |c.devices| && Get(c.uses, i) == 0
    ensures Get(StartAll(c, n).uses, i) == Users(c.devices[..n], i)
  {
    if n > 0 {
      StartAllUses(c, n - 1, i);
      assert c.devices[..n][..n - 1] == c.devices[..n - 1];
    }
  }

  /** With counts that start at zero, starting all devices makes them exact. */
  lemma StartedExact(c: Conf)
    requires forall i :: i in c.ifaces ==> Get(c.uses, i) == 0
    ensures UsesExact(StartAll(c, |c.devices|))
  {
    forall i | i in c.ifaces
      ensures Get(StartAll(c, |c.devices|).uses, i) == Users(c.devices, i)
    {
      StartAllUses(c, |c.devices|, i);
      assert c.devices[..|c.devices|] == c.devices;
    }
  }

  /** Over every run, as long as the daemon lives, each interface count is the number of listed devices
      on that interface. */
  lemma {:induction false} RunUsesExact(v: Version, c: Conf, steps: seq<Step>)
    requires UsesExact(c) && !Run(v, c, steps).1
    ensures UsesExact(Run(v, c, steps).0)
  {
    if steps != [] {
      var n := |steps| - 1;
      RunUsesExact(v, c, steps[..n]);
      StepUsesExact(v, Run(v, c, steps[..n]).0, steps[n]);
    }
  }

  /* ---- Deleting interfaces ---- */

  ghost predicate AllListed(c: Conf)
  {
    forall k :: 0 <= k < |c.devices| ==> c.devices[k].iface in c.ifaces
  }

  /** With exact counts, deleting interfaces leaves every listed device on a listed interface. */
  lemma DelInterfaceKeepsListed(c: Conf, name: string, stops: set<Interface>)
    requires UsesExact(c) && AllListed(c)
    ensures AllListed(DelInterface(c, name, stops).0)
  {
    var c' := DelInterface(c, name, stops).0;
    forall k | 0 <= k < |c.devices| ensures c.devices[k].iface in c'.ifaces {
      UsersPositive(c.devices, k);
      KeptSubset(c.uses, c.ifaces, name, stops, c.devices[k].iface);
    }
  }

  /** What it deletes is not what it was asked for: the interfaces of that name stay, and of the others
      exactly those go that no device uses and whose thread stops. */
  lemma DelInterfaceInverted(c: Conf, name: string, stops: set<Interface>, i: Interface)
    requires UsesExact(c) && i in c.ifaces
    ensures i !in DelInterface(c, name, stops).0.ifaces
       <==> i.name != name && Users(c.devices, i) == 0 && i in stops
  {
    KeptSubset(c.uses, c.ifaces, name, stops, i);
  }

  /** The interface that ADD attaches the new device to. */
  function Chosen(c: Conf, info: Info): Interface?
  {
    var i := if info.ifname == "" then null else LookupInt(c.ifaces, info.ifname);
    if i == null && c.dflt.Some? then c.dflt.value.iface else i
  }

  /** A successful ADD keeps every device on a listed interface exactly if the interface it chooses is
      listed. The one of the default section need not be: it may have been deleted. */
  lemma AddKeepsListedIff(c: Conf, info: Info, start: Start)
    requires AllListed(c) && Add(c, info, start).1 == Done
    ensures AllListed(Add(c, info, start).0) <==> Chosen(c, info) in c.ifaces
  {
    var c' := Add(c, info, start).0;
    assert c'.devices[|c.devices|].iface == Chosen(c, info);
    assert forall k :: 0 <= k < |c.devices| ==> c'.devices[k] == c.devices[k];
  }

  lemma StepKeepsListed(v: Version, c: Conf, step: Step)
    requires UsesExact(c) && AllListed(c)
    requires c.dflt.Some? ==> c.dflt.value.iface == null
    ensures var c' := Do(v, c, step).0;
            AllListed(c') && (c'.dflt.Some? ==> c'.dflt.value.iface == null)
  {
    var (c', o) := Do(v, c, step);
    match step
    case AddTarget(info, start) =>
      if o == Done {
        AddKeepsListedIff(c, info, start);
      } else {
        assert c'.devices == c.devices;
      }
    case DelTarget(info) => DelKeepsListed(v, c, info);
    case SetTargetAcl(info, names) => SetAclKeepsInterfaces(c, info, names);
    case DelInt(name, stops) => DelInterfaceKeepsListed(c, name, stops);
  }

  lemma DelKeepsListed(v: Version, c: Conf, info: Info)
    requires AllListed(c)
    ensures AllListed(Del(v, c, info).0)
  {
    var ds := c.devices;
    if Hits(c.ifaces, ds, info, |ds|) == 1 {
      var k := Hit(c.ifaces, ds, info, |ds|);
      forall i | 0 <= i < |Without(ds, k)| ensures Without(ds, k)[i].iface in c.ifaces {
        assert Without(ds, k)[i] == ds[if i < k then i else i + 1];
      }
    }
  }

  /** If the default section names no interface, no run ever leaves a listed device on an interface that
      is not listed. */
  lemma {:induction false} RunKeepsListed(v: Version, c: Conf, steps: seq<Step>)
    requires UsesExact(c) && AllListed(c)
    requires c.dflt.Some? ==> c.dflt.value.iface == null
    ensures var c' := Run(v, c, steps).0;
            AllListed(c') && (c'.dflt.Some? ==> c'.dflt.value.iface == null)
  {
    if steps != [] {
      var n := |steps| - 1;
      RunKeepsListed(v, c, steps[..n]);
      if !Run(v, c, steps[..n]).1 {
        RunUsesExact(v, c, steps[..n]);
        StepKeepsListed(v, Run(v, c, steps[..n]).0, steps[n]);
      }
    }
  }

  /** The default section names no interface, or one that is listed and in use. */
  ghost predicate DefaultInUse(c: Conf)
  {
    c.dflt.None? || c.dflt.value.iface == null
    || (c.dflt.value.iface in c.ifaces && Users(c.devices, c.dflt.value.iface) >= 1)
  }

  lemma AddKeepsInUse(c: Conf, info: Info, start: Start)
    requires AllListed(c) && DefaultInUse(c)
    ensures var c' := Add(c, info, start).0; AllListed(c') && DefaultInUse(c')
  {
    var (c', o) := Add(c, info, start);
    if o == Done {
      AddKeepsListedIff(c, info, start);
      assert c'.devices[..|c.devices|] == c.devices;
    } else {
      assert c'.devices == c.devices;
    }
  }

  /** As written, no request takes the default interface out of use without crashing the daemon. */
  lemma StepKeepsInUse(c: Conf, step: Step)
    requires UsesExact(c) && AllListed(c) && DefaultInUse(c)
    ensures var (c', o) := Do(AsWritten, c, step); AllListed(c') && (o != Crashed ==> DefaultInUse(c'))
  {
    var c' := Do(AsWritten, c, step).0;
    match step
    case AddTarget(info, start) => AddKeepsInUse(c, info, start);
    case DelTarget(info) => DelKeepsListed(AsWritten, c, info);
    case SetTargetAcl(info, names) =>
      SetAclKeepsInterfaces(c, info, names);
      if c.dflt.Some? {
        UsersSame(c.devices, c'.devices, c.dflt.value.iface);
      }
    case DelInt(name, stops) =>
      DelInterfaceKeepsListed(c, name, stops);
      if c.dflt.Some? && c.dflt.value.iface != null {
        KeptSubset(c.uses, c.ifaces, name, stops, c.dflt.value.iface);
      }
  }

  lemma {:induction false} RunKeepsInUse(c: Conf, steps: seq<Step>)
    requires UsesExact(c) && AllListed(c) && DefaultInUse(c)
    ensures var (c', crashed) := Run(AsWritten, c, steps); AllListed(c') && (!crashed ==> DefaultInUse(c'))
  {
    if steps != [] {
      var n := |steps| - 1;
      RunKeepsInUse(c, steps[..n]);
      if !Run(AsWritten, c, steps[..n]).1 {
        RunUsesExact(AsWritten, c, steps[..n]);
        StepKeepsInUse(Run(AsWritten, c, steps[..n]).0, steps[n]);
      }
    }
  }

  /** Adding a target without an interface while the default interface is not listed. */
  lemma AddUnlisted(c: Conf, info: Info)
    requires info.ifname == "" && !ClashesWith(c.devices, Filled(Fresh(c.ifaces, info), c.dflt).0)
    requires c.dflt.Some? && c.dflt.value.iface != null && c.dflt.value.iface !in c.ifaces
    ensures !AllListed(Add(c, info, Started).0)
  {
    var c' := Add(c, info, Started).0;
    assert c'.devices[|c.devices|].iface == c.dflt.value.iface;
  }

  /** The requests that put a device on an unlisted interface: an interface of another name is deleted,
      which takes the unused default interface with it, and a target is added. */
  lemma StaleDefaultInterface(v: Version, c: Conf, info: Info) returns (steps: seq<Step>)
    requires UsesExact(c) && !DefaultInUse(c)
    requires info.ifname == "" && !ClashesWith(c.devices, Filled(Fresh(c.ifaces, info), c.dflt).0)
    ensures !AllListed(Run(v, c, steps).0)
  {
    var d := c.dflt.value.iface;
    if d in c.ifaces {
      var del := DelInt(d.name + "x", {d});
      assert |d.name + "x"| != |d.name|;
      KeptSubset(c.uses, c.ifaces, d.name + "x", {d}, d);
      var c1 := Do(v, c, del).0;
      AddUnlisted(c1, info);
      steps := [del, AddTarget(info, Started)];
      assert steps[..1] == [del] && [del][..0] == [];
      assert Run(v, c, []) == (c, false) && Run(v, c, [del]) == (c1, false);
    } else {
      AddUnlisted(c, info);
      steps := [AddTarget(info, Started)];
      assert steps[..0] == [] && Run(v, c, []) == (c, false);
    }
  }

  /** As written, every run leaves every listed device on a listed interface if and only if the default
      section names no interface, or one that is listed and in use; `info` is any request for a target
      without an interface that would not clash. */
  lemma ListedIff(c: Conf, info: Info)
    requires UsesExact(c) && AllListed(c)
    requires info.ifname == "" && !ClashesWith(c.devices, Filled(Fresh(c.ifaces, info), c.dflt).0)
    ensures (forall steps :: AllListed(Run(AsWritten, c, steps).0)) <==> DefaultInUse(c)
  {
    if DefaultInUse(c) {
      forall steps ensures AllListed(Run(AsWritten, c, steps).0) {
        RunKeepsInUse(c, steps);
      }
    } else {
      var steps := StaleDefaultInterface(AsWritten, c, info);
    }
  }

  /** The requests that processAPIrequest passes on: for the deletion of an interface it only says that it
      is not implemented. */
  ghost predicate Served(steps: seq<Step>)
  {
    forall i :: 0 <= i < |steps| ==> !steps[i].DelInt?
  }

  /** The default section names no interface, or a listed one. */
  ghost predicate DefaultIsListed(c: Conf)
  {
    c.dflt.None? || c.dflt.value.iface == null || c.dflt.value.iface in c.ifaces
  }

  lemma StepServed(v: Version, c: Conf, step: Step)
    requires AllListed(c) && DefaultIsListed(c) && !step.DelInt?
    ensures var c' := Do(v, c, step).0; AllListed(c') && DefaultIsListed(c')
  {
    match step
    case AddTarget(info, start) =>
      if Add(c, info, start).1 == Done {
        AddKeepsListedIff(c, info, start);
      } else {
        assert Add(c, info, start).0.devices == c.devices;
      }
    case DelTarget(info) => DelKeepsListed(v, c, info);
    case SetTargetAcl(info, names) => SetAclKeepsInterfaces(c, info, names);
  }

  lemma {:induction false} RunServed(v: Version, c: Conf, steps: seq<Step>)
    requires AllListed(c) && DefaultIsListed(c) && Served(steps)
    ensures var c' := Run(v, c, steps).0; AllListed(c') && DefaultIsListed(c')
  {
    if steps != [] {
      var n := |steps| - 1;
      RunServed(v, c, steps[..n]);
      if !Run(v, c, steps[..n]).1 {
        StepServed(v, Run(v, c, steps[..n]).0, steps[n]);
      }
    }
  }

  /** As long as no interface is deleted, being listed is enough for the interface of the default section. */
  lemma ServedListedIff(v: Version, c: Conf, info: Info)
    requires AllListed(c)
    requires info.ifname == "" && !ClashesWith(c.devices, Filled(Fresh(c.ifaces, info), c.dflt).0)
    ensures (forall steps :: Served(steps) ==> AllListed(Run(v, c, steps).0)) <==> DefaultIsListed(c)
  {
    if DefaultIsListed(c) {
      forall steps | Served(steps) ensures AllListed(Run(v, c, steps).0) {
        RunServed(v, c, steps);
      }
    } else {
      var steps := [AddTarget(info, Started)];
      AddUnlisted(c, info);
      assert steps[..0] == [] && Run(v, c, []) == (c, false);
      assert Served(steps) && !AllListed(Run(v, c, steps).0);
    }
  }

  /* ---- Access-list counts ---- */

  function RoleCount(r: Roles, a: AclHeader): nat
  {
    One(r.wacl == a) + One(r.racl == a) + One(r.cfgsetacl == a) + One(r.cfgracl == a)
  }

  /** Role fields of listed devices that point at an access list. */
  function RoleFields(ds: seq<Dev>, a: AclHeader): nat
  {
    if ds == [] then 0 else RoleFields(ds[..|ds| - 1], a) + RoleCount(ds[|ds| - 1].roles, a)
  }

  /** How far the count of an access list is ahead of the fields that point at it. */
  function Gap(c: Conf, a: AclHeader): int
  {
    Get(c.refs, a) - RoleFields(c.devices, a)
  }

  lemma SetRoleConserves(acls: seq<AclHeader>, refs: map<AclHeader?, int>, cur: AclHeader?, name: string, a: AclHeader)
    ensures var (refs', new_) := SetRole(acls, refs, cur, name);
            Get(refs', a) - One(new_ == a) == Get(refs, a) - One(cur == a)
  {
  }

  lemma SetRolesConserve(acls: seq<AclHeader>, refs: map<AclHeader?, int>, r: Roles, names: Names, a: AclHeader)
    ensures var (refs', r') := SetRoles(acls, refs, r, names);
            Get(refs', a) - RoleCount(r', a) == Get(refs, a) - RoleCount(r, a)
  {
    SetRoleConserves(acls, refs, r.wacl, names.wacl, a);
    var refs1 := SetRole(acls, refs, r.wacl, names.wacl).0;
    SetRoleConserves(acls, refs1, r.racl, names.racl, a);
    var refs2 := SetRole(acls, refs1, r.racl, names.racl).0;
    SetRoleConserves(acls, refs2, r.cfgsetacl, names.cfgsetacl, a);
    var refs3 := SetRole(acls, refs2, r.cfgsetacl, names.cfgsetacl).0;
    SetRoleConserves(acls, refs3, r.cfgracl, names.cfgracl, a);
  }

  lemma {:induction false} FieldsUpdate(ds: seq<Dev>, k: nat, d: Dev, a: AclHeader)
    requires k < |ds|
    ensures RoleFields(ds[k := d], a) == RoleFields(ds, a) - RoleCount(ds[k].roles, a) + RoleCount(d.roles, a)
  {
    var n := |ds| - 1;
    if k < n {
      FieldsUpdate(ds[..n], k, d, a);
      assert ds[k := d][..n] == ds[..n][k := d];
    } else {
      assert ds[k := d][..n] == ds[..n];
    }
  }

  lemma {:induction false} FieldsWithout(ds: seq<Dev>, k: nat, a: AclHeader)
    requires k < |ds|
    ensures RoleFields(ds, a) == RoleFields(Without(ds, k), a) + RoleCount(ds[k].roles, a)
  {
    var n := |ds| - 1;
    if k == n {
      assert Without(ds, k) == ds[..n];
    } else {
      FieldsWithout(ds[..n], k, a);
      assert Without(ds, k)[..n - 1] == Without(ds[..n], k);
    }
  }

  /** SETACL changes the count of every access list by the change in the number of fields that point at
      it, whichever devices it means and whether or not the names are known. */
  lemma {:induction false} SetAclConserves(c: Conf, info: Info, names: Names, n: nat, a: AclHeader)
    requires n <= |c.devices|
    ensures Gap(SetAcls(c, info, names, n), a) == Gap(c, a)
  {
    if n > 0 {
      SetAclConserves(c, info, names, n - 1, a);
      var c1, d := SetAcls(c, info, names, n - 1), c.devices[n - 1];
      assert c1.devices[n - 1] == d;
      if Matches(c.ifaces, d, info) {
        SetDeviceConserves(c1, n - 1, names, a);
      }
    }
  }

  lemma SetDeviceConserves(c: Conf, k: nat, names: Names, a: AclHeader)
    requires k < |c.devices|
    ensures var (refs, roles) := SetRoles(c.acls, c.refs, c.devices[k].roles, names);
            Gap(c.(devices := c.devices[k := c.devices[k].(roles := roles)], refs := refs), a) == Gap(c, a)
  {
    var d := c.devices[k];
    SetRolesConserve(c.acls, c.refs, d.roles, names, a);
    FieldsUpdate(c.devices, k, d.(roles := SetRoles(c.acls, c.refs, d.roles, names).1), a);
  }

  /** The drift of one step: the fields of a deleted device keep their counts, and the fields that a
      new device inherits from the default section are not counted. */
  function Drift(v: Version, c: Conf, step: Step, a: AclHeader): int
  {
    match step
    case DelTarget(info) =>
      if Del(v, c, info).1 == Failure then 0
      else RoleCount(c.devices[Hit(c.ifaces, c.devices, info, |c.devices|)].roles, a)
    case AddTarget(info, start) =>
      if Add(c, info, start).1 == Done && c.dflt.Some? then 0 - RoleCount(c.dflt.value.roles, a) else 0
    case _ => 0
  }

  function RunDrift(v: Version, c: Conf, steps: seq<Step>, a: AclHeader): int
  {
    if steps == [] then 0
    else
      var n := |steps| - 1;
      var (before, crashed) := Run(v, c, steps[..n]);
      RunDrift(v, c, steps[..n], a) + if crashed then 0 else Drift(v, before, steps[n], a)
  }

  lemma AddGap(v: Version, c: Conf, info: Info, start: Start, a: AclHeader)
    ensures Gap(Add(c, info, start).0, a) == Gap(c, a) + Drift(v, c, AddTarget(info, start), a)
  {
    var (c', o) := Add(c, info, start);
    if o == Done {
      assert c'.devices[..|c.devices|] == c.devices;
    }
  }

  lemma DelGap(v: Version, c: Conf, info: Info, a: AclHeader)
    ensures Gap(Del(v, c, info).0, a) == Gap(c, a) + Drift(v, c, DelTarget(info), a)
  {
    if Del(v, c, info).1 != Failure {
      FieldsWithout(c.devices, Hit(c.ifaces, c.devices, info, |c.devices|), a);
    }
  }

  lemma StepGap(v: Version, c: Conf, step: Step, a: AclHeader)
    ensures Gap(Do(v, c, step).0, a) == Gap(c, a) + Drift(v, c, step, a)
  {
    match step
    case AddTarget(info, start) => AddGap(v, c, info, start, a);
    case DelTarget(info) => DelGap(v, c, info, a);
    case SetTargetAcl(info, names) => SetAclConserves(c, info, names, |c.devices|, a);
    case DelInt(name, stops) =>
  }

  /** Over every run the count of an access list is off by exactly the drifts of its steps. */
  lemma {:induction false} RunGap(v: Version, c: Conf, steps: seq<Step>, a: AclHeader)
    ensures Gap(Run(v, c, steps).0, a) == Gap(c, a) + RunDrift(v, c, steps, a)
  {
    if steps != [] {
      var n := |steps| - 1;
      RunGap(v, c, steps[..n], a);
      var (before, crashed) := Run(v, c, steps[..n]);
      if !crashed {
        StepGap(v, before, steps[n], a);
      }
    }
  }

  /** Conservation: a run of SETACL requests and interface deletions, on any list of devices, changes
      each count by the change in the number of fields. */
  lemma SetAclRunConserves(v: Version, c: Conf, steps: seq<Step>, a: AclHeader)
    requires forall i :: 0 <= i < |steps| ==> steps[i].SetTargetAcl? || steps[i].DelInt?
    ensures var c' := Run(v, c, steps).0;
            Get(c'.refs, a) - Get(c.refs, a) == RoleFields(c'.devices, a) - RoleFields(c.devices, a)
  {
    RunGap(v, c, steps, a);
    NoDrift(v, c, steps, a);
  }

  lemma {:induction false} NoDrift(v: Version, c: Conf, steps: seq<Step>, a: AclHeader)
    requires forall i :: 0 <= i < |steps| ==> steps[i].SetTargetAcl? || steps[i].DelInt?
    ensures RunDrift(v, c, steps, a) == 0
  {
    if steps != [] {
      NoDrift(v, c, steps[..|steps| - 1], a);
    }
  }
}
