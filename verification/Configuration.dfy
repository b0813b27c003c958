/** The configuration object (struct qconfig) and the code of parseconf.c and api.c that works on it in
    place: defaults, validation, start, and the API requests. Every method is tied to the functions of
    DeviceConfig and Registry. */
module Configuration {
  import opened Common
  import opened Aoe
  import opened Lba
  import opened LinkedList
  import opened DeviceConfig
  import opened Registry
  import opened RegistryTheorems
  import opened Loading

  /** struct aoedev, as far as the configuration goes. */
  class Device {
    var target: Option<string>
    var shelf: uint16
    var slot: byte
    var iface: Interface?
    var writecache: int
    var broadcast: int
    var wacl: AclHeader?
    var racl: AclHeader?
    var cfgsetacl: AclHeader?
    var cfgracl: AclHeader?

    ghost function Value(): Dev
      reads this
    {
      Dev(target, shelf, slot, iface, writecache, broadcast, Roles(wacl, racl, cfgsetacl, cfgracl))
    }

    /** The new device of processTARGET_ADD, before defaults. */
    constructor (info: Info, iface: Interface?)
      ensures Value() == Dev(Some(info.target), info.shelf, info.slot, iface, info.writecache, info.broadcast,
                             Roles(null, null, null, null))
    {
      target, shelf, slot, this.iface := Some(info.target), info.shelf, info.slot, iface;
      writecache, broadcast := info.writecache, info.broadcast;
      wacl, racl, cfgsetacl, cfgracl := null, null, null, null;
    }

    /** The new device of parseDEV. */
    constructor Unset()
      ensures Value() == UNSET
    {
      target, shelf, slot, iface := None, ANY_SHELF, ANY_SLOT, null;
      writecache, broadcast := -1, -1;
      wacl, racl, cfgsetacl, cfgracl := null, null, null, null;
    }

    method StoreRole(role: Role, a: AclHeader?)
      modifies this
      ensures Value() == old(Value()).(roles := WithRole(old(Value().roles), role, a))
    {
      match role
      case Write => wacl := a;
      case Read => racl := a;
      case CfgSet => cfgsetacl := a;
      case CfgRead => cfgracl := a;
    }

    /** A statement of parseDEV that is not in the acl subsection. */
    method StoreField(s: Stmt, i: Interface?)
      modifies this
      ensures Value() == WithField(old(Value()), s, i)
    {
      match s {
        case Target(t) => target := Some(t);
        case Shelf(n) => shelf := n;
        case Slot(n) => slot := n;
        case Iface(_) => iface := i;
        case Writecache(on) => writecache := if on then 1 else 0;
        case Broadcast(on) => broadcast := if on then 1 else 0;
        case _ =>
      }
    }
  }

  ghost predicate Distinct(ds: seq<Device>)
  {
    forall i, j :: 0 <= i < j < |ds| ==> ds[i] != ds[j]
  }

  lemma DistinctWithout(ds: seq<Device>, k: nat)
    requires Distinct(ds) && k < |ds|
    ensures Distinct(Without(ds, k))
  {
  }

  /** struct qconfig. `ints` and `lists` are all interfaces and access lists there are, listed or not. */
  class Config {
    const devices: List<Device>
    const intlist: List<Interface>
    const acllist: seq<AclHeader>
    const devdefault: Device?
    ghost const ints: set<Interface>
    ghost const lists: set<AclHeader>

    /** The listed devices have these values. */
    ghost predicate Shows(ds: seq<Dev>)
      reads devices, devices.members
    {
      |ds| == |devices.items|
      && forall i :: 0 <= i < |ds| ==> devices.items[i] in devices.members && devices.items[i].Value() == ds[i]
    }

    ghost function Dflt(): Option<Dev>
      reads devdefault
    {
      if devdefault == null then None else Some(devdefault.Value())
    }

    ghost function Uses(): map<Interface?, int>
      reads ints
    {
      map i: Interface? | i in ints :: i.refcnt
    }

    ghost function Refs(): map<AclHeader?, int>
      reads lists
    {
      map a: AclHeader? | a in lists :: a.refcnt
    }

    /** The lists are well formed, no device is listed twice, and the default device not at all. */
    ghost predicate Sound()
      reads devices, devices.repr, intlist, intlist.repr
    {
      && devices.Valid() && intlist.Valid()
      && Distinct(devices.items) && devdefault !in devices.members
    }

    /** What is not in the device list. */
    ghost function Elsewhere(): (Option<Dev>, seq<Interface>, map<Interface?, int>, map<AclHeader?, int>)
      reads devdefault, intlist, ints, lists
    {
      (Dflt(), intlist.items, Uses(), Refs())
    }

    /** This object is well formed and stands for the value `c`. */
    ghost predicate Is(c: Conf)
      reads devices, devices.repr, devices.members, devdefault, intlist, intlist.repr, ints, lists
    {
      Sound() && Shows(c.devices) && Elsewhere() == (c.dflt, c.ifaces, c.uses, c.refs) && acllist == c.acls
    }

    /** The lists have got no new links and items. */
    twostate predicate Kept()
      reads devices, intlist
    {
      && devices.repr == old(devices.repr) && devices.members == old(devices.members)
      && intlist.repr == old(intlist.repr)
    }

    /** New links and devices are newly made ones. */
    twostate predicate Renewed()
      reads devices, intlist
    {
      && (forall l :: l in devices.repr ==> l in old(devices.repr) || fresh(l))
      && (forall d :: d in devices.members ==> d in old(devices.members) || fresh(d))
      && intlist.repr == old(intlist.repr)
    }

    /** New links are newly made ones. */
    twostate predicate Grown()
      reads devices, intlist
    {
      && (forall l :: l in devices.repr ==> l in old(devices.repr) || fresh(l))
      && devices.members == old(devices.members) && intlist.repr == old(intlist.repr)
    }

    /** The configuration that loading puts together from its lists. */
    constructor (devices: List<Device>, intlist: List<Interface>, acllist: seq<AclHeader>, devdefault: Device?,
                 ghost ints: set<Interface>, ghost lists: set<AclHeader>)
      ensures this.devices == devices && this.intlist == intlist && this.acllist == acllist
      ensures this.devdefault == devdefault && this.ints == ints && this.lists == lists
    {
      this.devices, this.intlist, this.acllist, this.devdefault := devices, intlist, acllist, devdefault;
      this.ints, this.lists := ints, lists;
    }

    /* ---- Lookups ---- */

    /** referenceint */
    method ReferenceInt(name: string, ghost c: Conf) returns (r: Interface?)
      requires Is(c)
      ensures Is(c) && r == LookupInt(c.ifaces, name)
    {
      var l := intlist.first;
      ghost var k, items := 0, intlist.items;
      while l != null
        invariant k <= |items| && l == intlist.At(k)
        invariant LookupInt(items[k..], name) == LookupInt(items, name)
        decreases |items| - k
      {
        assert items[k..][0] == l.item && items[k..][1..] == items[k + 1..];
        if l.item.name == name {
          return l.item;
        }
        intlist.NextAt(k);
        l := l.next;
        k := k + 1;
      }
      return null;
    }

    /** referenceacl */
    method ReferenceAcl(name: string) returns (r: AclHeader?)
      ensures r == LookupAcl(acllist, name)
    {
      var k := 0;
      while k < |acllist|
        invariant k <= |acllist| && LookupAcl(acllist[k..], name) == LookupAcl(acllist, name)
      {
        assert acllist[k..][0] == acllist[k] && acllist[k..][1..] == acllist[k + 1..];
        if acllist[k].name == name {
          return acllist[k];
        }
        k := k + 1;
      }
      return null;
    }

    /* ---- Defaults and validation ---- */

    method DefaultAddress(device: Device)
      requires device != devdefault
      modifies device`shelf, device`slot, devdefault
      ensures var d, f := old(device.Value()), old(Dflt());
              && device.shelf == Filled(d, f).0.shelf && device.slot == Filled(d, f).0.slot
              && Dflt() == Filled(d, f).1
    {
      if device.shelf == ANY_SHELF && devdefault != null {
        device.shelf := devdefault.shelf;
      }
      if device.slot == ANY_SLOT && devdefault != null {
        device.slot := devdefault.slot;
        devdefault.slot := (devdefault.slot + 1) % 256;
      }
    }

    method DefaultOptions(device: Device)
      requires device != devdefault
      modifies device`writecache, device`broadcast, device`iface
      ensures var d := Filled(old(device.Value()), Dflt()).0;
              device.writecache == d.writecache && device.broadcast == d.broadcast && device.iface == d.iface
    {
      if devdefault != null {
        if device.writecache == -1 {
          device.writecache := devdefault.writecache;
        }
        if device.broadcast == -1 {
          device.broadcast := devdefault.broadcast;
        }
        if device.iface == null {
          device.iface := devdefault.iface;
        }
      }
      if device.writecache == -1 {
        device.writecache := 1;
      }
      if device.broadcast == -1 {
        device.broadcast := 1;
      }
    }

    /** The access lists are copied without aclrefup. */
    method DefaultRoles(device: Device)
      requires device != devdefault
      modifies device`wacl, device`racl, device`cfgracl, device`cfgsetacl
      ensures device.Value().roles == Filled(old(device.Value()), Dflt()).0.roles
    {
      if devdefault != null {
        if device.wacl == null {
          device.wacl := devdefault.wacl;
        }
        if device.racl == null {
          device.racl := devdefault.racl;
        }
        if device.cfgracl == null {
          device.cfgracl := devdefault.cfgracl;
        }
        if device.cfgsetacl == null {
          device.cfgsetacl := devdefault.cfgsetacl;
        }
      }
    }

    /** qaoed_devdefaults */
    method DevDefaults(device: Device)
      requires device != devdefault
      modifies device, devdefault
      ensures (device.Value(), Dflt()) == Filled(old(device.Value()), old(Dflt()))
    {
      DefaultOptions(device);
      DefaultRoles(device);
      DefaultAddress(device);
    }

    /** Defaults for the device at a place of the list. */
    method DefaultListed(d: Device, ghost k: nat, ghost c: Conf)
      requires Is(c) && k < |c.devices| && devices.items[k] == d
      modifies d, devdefault
      ensures var (v, f) := Filled(c.devices[k], c.dflt); Is(c.(devices := c.devices[k := v], dflt := f))
    {
      DevDefaults(d);
    }

    /** The loop of qaoed_defaultconfig; `cs` are the values that the configuration goes through. */
    method DefaultEach(ghost cs: seq<Conf>)
      requires cs != [] && Is(cs[0]) && |cs| == |cs[0].devices| + 1
      requires forall k :: 0 <= k < |cs| - 1 ==> DefaultsStep(cs[k], k, cs[k + 1])
      modifies devices.members, devdefault
      ensures Is(cs[|cs| - 1])
    {
      ghost var k, items := 0, devices.items;
      var l := devices.first;
      while l != null
        invariant devices.items == items && |items| == |cs| - 1
        invariant k < |cs| && Is(cs[k]) && l == devices.At(k)
        decreases |cs| - k
      {
        assert DefaultsStep(cs[k], k, cs[k + 1]);
        devices.NextAt(k);
        var next := l.next;
        DefaultListed(l.item, k, cs[k]);
        l := next;
        k := k + 1;
      }
    }

    /** qaoed_defaultconfig */
    method DefaultConfig(ghost c: Conf)
      requires Is(c)
      modifies devices.members, devdefault
      ensures Is(c.(devices := FilledAll(c.devices, c.dflt).0, dflt := FilledAll(c.devices, c.dflt).1))
    {
      ghost var cs := DefaultsSteps(c);
      DefaultEach(cs);
    }

    /** The tests of qaoed_validateconfig on access lists and interfaces. */
    method ValidateLists(ghost c: Conf) returns (ok: bool)
      requires Is(c)
      ensures Is(c)
      ensures ok <==> ListsOK(c)
    {
      for i := 0 to |acllist|
        invariant forall k :: 0 <= k < i ==> acllist[k].logOK
      {
        if !acllist[i].logOK {
          return false;
        }
      }
      ghost var k := 0;
      var l := intlist.first;
      while l != null
        invariant k <= |c.ifaces| && l == intlist.At(k)
        invariant forall i :: 0 <= i < k ==> c.ifaces[i].logOK && c.ifaces[i].mtu != 0
        decreases |c.ifaces| - k
      {
        assert l.item == c.ifaces[k];
        if !l.item.logOK || l.item.mtu == 0 {
          return false;
        }
        intlist.NextAt(k);
        l := l.next;
        k := k + 1;
      }
      return true;
    }

    /** The tests on single devices; `files` are the names that stat finds. */
    method ValidateEach(files: string -> bool, ghost ds: seq<Dev>) returns (ok: bool)
      requires devices.Valid() && Shows(ds)
      ensures ok <==> EachOK(ds, files)
    {
      ghost var k := 0;
      var l := devices.first;
      while l != null
        invariant k <= |ds| && l == devices.At(k)
        invariant forall i :: 0 <= i < k ==> TargetOK(ds[i], files) && Complete(ds[i])
        decreases |ds| - k
      {
        var d := l.item;
        assert d.Value() == ds[k];
        if d.target.None? || !files(d.target.value) {
          assert !TargetOK(ds[k], files);
          return false;
        }
        if d.iface == null || d.slot == ANY_SLOT || d.shelf == ANY_SHELF {
          assert !Complete(ds[k]);
          return false;
        }
        devices.NextAt(k);
        l := l.next;
        k := k + 1;
      }
      return true;
    }

    /** The inner loop of the comparison. */
    method NoClash(l: Link<Device>, ghost ds: seq<Dev>, ghost k: nat) returns (clear: bool)
      requires devices.Valid() && Shows(ds) && k < |ds| && devices.spine[k] == l
      ensures clear <==> ClearRow(ds, k)
    {
      ghost var j := 0;
      var d, s := l.item, devices.first;
      assert d.Value() == ds[k];
      while s != null
        invariant j <= |ds| && s == devices.At(j)
        invariant forall i :: 0 <= i < j && i != k ==> !Clash(ds[k], ds[i])
        decreases |ds| - j
      {
        var e := s.item;
        assert s == devices.spine[j] && e.Value() == ds[j];
        if d.slot == e.slot && d.shelf == e.shelf && s != l {
          if d.iface == e.iface || d.target != e.target {
            assert Clash(ds[k], ds[j]) && j != k;
            return false;
          }
        }
        devices.NextAt(j);
        s := s.next;
        j := j + 1;
      }
      return true;
    }

    /** The comparison of every two devices, in both orders. */
    method ValidatePairs(ghost ds: seq<Dev>) returns (ok: bool)
      requires devices.Valid() && Shows(ds)
      ensures ok <==> ClearRows(ds, |ds|)
    {
      ghost var k := 0;
      var l := devices.first;
      while l != null
        invariant devices.Valid() && Shows(ds) && k <= |ds| && l == devices.At(k)
        invariant ClearRows(ds, k)
        decreases |ds| - k
      {
        var clear := NoClash(l, ds, k);
        if !clear {
          RowNotClear(ds, k);
          return false;
        }
        devices.NextAt(k);
        l := l.next;
        k := k + 1;
      }
      return true;
    }

    /** qaoed_validateconfig */
    method Validate(files: string -> bool, ghost c: Conf) returns (ok: bool)
      requires Is(c)
      ensures ok <==> Accepted(c, files)
    {
      AcceptedParts(c, files);
      ok := ValidateLists(c);
      if ok {
        ok := ValidateEach(files, c.devices);
      }
      if ok {
        ok := ValidatePairs(c.devices);
      }
    }

    /* ---- Reference counts ---- */

    /** qaoed_intrefup */
    method IntRefUp(i: Interface, ghost c: Conf)
      requires i in ints && Is(c)
      modifies i
      ensures Is(c.(uses := Bump(c.uses, i, 1)))
    {
      i.refcnt := i.refcnt + 1;
      assert Uses() == Bump(c.uses, i, 1);
    }

    /** qaoed_intrefdown */
    method IntRefDown(i: Interface, ghost c: Conf)
      requires i in ints && Is(c)
      modifies i
      ensures Is(c.(uses := Bump(c.uses, i, -1)))
    {
      i.refcnt := i.refcnt - 1;
      assert Uses() == Bump(c.uses, i, -1);
    }

    /** aclrefup, for a list that was found */
    method AclRefUp(a: AclHeader, ghost c: Conf)
      requires a in lists && Is(c)
      modifies a
      ensures Is(c.(refs := Bump(c.refs, a, 1)))
    {
      a.refcnt := a.refcnt + 1;
      assert Refs() == Bump(c.refs, a, 1);
    }

    /** aclrefdown */
    method AclRefDown(a: AclHeader, ghost c: Conf)
      requires a in lists && Is(c)
      modifies a
      ensures Is(c.(refs := Bump(c.refs, a, -1)))
    {
      a.refcnt := a.refcnt - 1;
      assert Refs() == Bump(c.refs, a, -1);
    }

    /** qaoed_devices: starts the devices in order, up to the first that does not start. */
    method StartDevices(results: seq<Start>, ghost c: Conf) returns (ok: bool)
      requires Is(c) && ClosedConf(c, ints, lists) && |results| == |c.devices|
      requires forall i :: 0 <= i < |c.devices| ==> Complete(c.devices[i])
      modifies ints
      ensures Is(StartAll(c, Running(results, 0)))
      ensures ok <==> Running(results, 0) == |c.devices| > 0
    {
      if devices.first == null {
        return false;
      }
      ghost var cs := StartSteps(c, ints);
      var k := StartEach(results, cs);
      ok := k == |results|;
    }

    /** Its loop; `cs` are the values that the configuration goes through. */
    method StartEach(results: seq<Start>, ghost cs: seq<Conf>) returns (k: nat)
      requires |cs| == |results| + 1 && Is(cs[0]) && |cs[0].devices| == |results|
      requires forall i, j :: 0 <= i < j < |cs| && j == i + 1 ==> StartStep(cs[i], i, cs[j], ints)
      modifies ints
      ensures k == Running(results, 0) && Is(cs[k])
    {
      k := 0;
      var l := devices.first;
      var ran := true;
      while l != null && ran
        invariant k <= |results| && Is(cs[k]) && |cs[k].devices| == |results|
        invariant Running(results, 0) == if ran then Running(results, k) else k
        invariant ran ==> l == devices.At(k)
        decreases |results| - k, ran
      {
        l, ran := StartOne(l, results[k], k, cs[k], cs[k + 1]);
        if ran {
          k := k + 1;
        }
      }
    }

    /** qaoed_startdevice, for the device at a place of the list, and the step to the next place. */
    method StartOne(l: Link<Device>, start: Start, ghost k: nat, ghost c: Conf, ghost c': Conf)
        returns (next: Link?<Device>, ran: bool)
      requires Is(c) && StartStep(c, k, c', ints) && devices.spine[k] == l
      modifies ints
      ensures ran <==> start == Started
      ensures if ran then Is(c') && next == devices.At(k + 1) else Is(c)
    {
      var d := l.item;
      assert d == devices.items[k] && d.Value() == c.devices[k];
      devices.NextAt(k);
      next := l.next;
      ran := StartDevice(d, start, c);
    }

    /** qaoed_startdevice */
    method StartDevice(d: Device, start: Start, ghost c: Conf) returns (ran: bool)
      requires Is(c) && d.iface != null && d.iface in ints
      modifies ints
      ensures ran <==> start == Started
      ensures Is(if ran then c.(uses := Bump(c.uses, d.iface, 1)) else c)
      ensures devices.spine == old(devices.spine) && devices.items == old(devices.items)
      ensures d.Value() == old(d.Value()) && Kept()
    {
      if start == NoFile {
        return false;
      }
      IntRefUp(d.iface, c);
      if start == NoThread {
        BumpBack(c.uses, d.iface);
        IntRefDown(d.iface, c.(uses := Bump(c.uses, d.iface, 1)));
        return false;
      }
      return true;
    }

    /* ---- Loading ---- */

    method CountRole(a: AclHeader?, ghost c: Conf)
      requires Is(c) && (a == null || a in lists)
      modifies lists
      ensures Is(c.(refs := Up(c.refs, a)))
    {
      if a != null {
        AclRefUp(a, c);
      }
    }

    /** Stores a role in a device that is not listed. */
    method StoreRole(d: Device, role: Role, a: AclHeader?, ghost c: Conf)
      requires Is(c) && d !in devices.members && d != devdefault
      modifies d
      ensures d.Value() == old(d.Value()).(roles := WithRole(old(d.Value().roles), role, a)) && Is(c)
    {
      d.StoreRole(role, a);
    }

    /** Looks up a list, counts it and stores it in a role. */
    method TakeRole(d: Device, role: Role, name: string, ghost p: Parse, ghost c: Conf)
      requires Is(c) && p == Parse(d.Value(), c.refs, true) && d !in devices.members && d != devdefault
      requires forall k :: 0 <= k < |c.acls| ==> c.acls[k] in lists
      modifies d, lists
      ensures var a := LookupAcl(c.acls, name);
              && d.Value() == p.dev.(roles := WithRole(p.dev.roles, role, a))
              && Is(c.(refs := Up(c.refs, a)))
      ensures Kept()
    {
      var a := ReferenceAcl(name);
      StoreRole(d, role, a, c);
      CountRole(a, c);
    }

    /** A statement of an acl subsection (parsedevacl). */
    method ParseDevAcl(d: Device, keyword: string, name: string, ghost p: Parse, ghost c: Conf) returns (ok: bool)
      requires Is(c) && p == Parse(d.Value(), c.refs, true) && d !in devices.members && d != devdefault
      requires forall k :: 0 <= k < |c.acls| ==> c.acls[k] in lists
      modifies d, lists
      ensures var p' := ParseStmt(c.ifaces, c.acls, p, Acl(keyword, name));
              ok == p'.ok && d.Value() == p'.dev && Is(c.(refs := p'.refs)) && Kept()
    {
      ok := true;
      if keyword == "read" {
        TakeRole(d, Read, name, p, c);
      } else if keyword == "write" {
        TakeRole(d, Write, name, p, c);
      } else if keyword == "cfgread" || keyword == "discover" {
        TakeRole(d, CfgRead, name, p, c);
      } else if keyword == "cfgset" {
        TakeRole(d, CfgSet, name, p, c);
      } else {
        ok := false;
      }
    }

    /** Any other statement. */
    method ParseField(d: Device, s: Stmt, ghost p: Parse, ghost c: Conf) returns (ok: bool)
      requires Is(c) && p == Parse(d.Value(), c.refs, true) && d !in devices.members && d != devdefault && !s.Acl?
      modifies d
      ensures var p' := ParseStmt(c.ifaces, c.acls, p, s);
              ok == p'.ok && d.Value() == p'.dev && p'.refs == c.refs && Is(c) && Kept()
    {
      var i: Interface? := null;
      if s.Iface? {
        i := ReferenceInt(s.ifname, c);
      }
      StoreField(d, s, i, c);
      ok := !s.Unknown?;
    }

    /** Stores a field of a device that is not listed. */
    method StoreField(d: Device, s: Stmt, i: Interface?, ghost c: Conf)
      requires Is(c) && d !in devices.members && d != devdefault
      modifies d
      ensures d.Value() == WithField(old(d.Value()), s, i) && Is(c)
    {
      d.StoreField(s, i);
    }

    /** A statement of a section. */
    method ParseLine(d: Device, s: Stmt, ghost p: Parse, ghost c: Conf) returns (ok: bool)
      requires Is(c) && p == Parse(d.Value(), c.refs, true) && d !in devices.members && d != devdefault
      requires forall k :: 0 <= k < |c.acls| ==> c.acls[k] in lists
      modifies d, lists
      ensures var p' := ParseStmt(c.ifaces, c.acls, p, s);
              ok == p'.ok && d.Value() == p'.dev && Is(c.(refs := p'.refs)) && Kept()
    {
      if s.Acl? {
        ok := ParseDevAcl(d, s.keyword, s.name, p, c);
      } else {
        ok := ParseField(d, s, p, c);
      }
    }

    /** One statement of a section. */
    method ParseNext(d: Device, stmts: seq<Stmt>, k: nat, ghost c: Conf) returns (ok: bool)
      requires k < |stmts| && forall i :: 0 <= i < |c.acls| ==> c.acls[i] in lists
      requires var p := ParseSection(c.ifaces, c.acls, c.refs, stmts[..k]);
               p == Parse(d.Value(), p.refs, true) && Is(c.(refs := p.refs))
      requires d !in devices.members && d != devdefault
      modifies d, lists
      ensures var p := ParseSection(c.ifaces, c.acls, c.refs, stmts[..k + 1]);
              ok == p.ok && d.Value() == p.dev && Is(c.(refs := p.refs)) && Kept()
    {
      assert stmts[..k + 1][..k] == stmts[..k];
      ghost var p := ParseSection(c.ifaces, c.acls, c.refs, stmts[..k]);
      ok := ParseLine(d, stmts[k], p, c.(refs := p.refs));
    }

    /** parseDEV, for one section. */
    method ParseDev(stmts: seq<Stmt>, ghost c: Conf) returns (d: Device, ok: bool)
      requires Is(c) && forall k :: 0 <= k < |c.acls| ==> c.acls[k] in lists
      modifies lists
      ensures fresh(d)
      ensures var p := ParseSection(c.ifaces, c.acls, c.refs, stmts);
              ok == p.ok && d.Value() == p.dev && Is(c.(refs := p.refs))
    {
      d := new Device.Unset();
      ok := ParseLines(d, stmts, c);
    }

    /** The loop over the statements. */
    method ParseLines(d: Device, stmts: seq<Stmt>, ghost c: Conf) returns (ok: bool)
      requires Is(c) && d.Value() == UNSET && forall k :: 0 <= k < |c.acls| ==> c.acls[k] in lists
      requires d !in devices.members && d != devdefault
      modifies d, lists
      ensures var p := ParseSection(c.ifaces, c.acls, c.refs, stmts);
              ok == p.ok && d.Value() == p.dev && Is(c.(refs := p.refs))
    {
      ok := true;
      var k := 0;
      assert stmts[..0] == [];
      while k < |stmts|
        invariant k <= |stmts| && Kept()
        invariant var p := ParseSection(c.ifaces, c.acls, c.refs, stmts[..k]);
                  p == Parse(d.Value(), p.refs, true) && Is(c.(refs := p.refs))
      {
        ok := ParseNext(d, stmts, k, c);
        k := k + 1;
        if !ok {
          GivenUp(c.ifaces, c.acls, c.refs, stmts, k);
          return;
        }
      }
      assert stmts[..k] == stmts;
    }

    /** The part of qaoed_loadconfig from findDEV to qaoed_defaultconfig; `c0` is the value before the default
        sections were read, `c` the value after it. */
    method LoadDevices(file: File, ghost c0: Conf, ghost c: Conf)
      requires Is(c) && forall k :: 0 <= k < |c.acls| ==> c.acls[k] in lists
      requires c == c0.(devices := [], dflt := Defaults(c0, file).0, refs := Defaults(c0, file).1)
      modifies devices, devices.repr, devices.members, devdefault, lists
      ensures Is(Load(c0, file))
    {
      FindDev(file.devs, c);
      DefaultConfig(FoundAll(c, file.devs));
    }

    /** findDEV. The section that is given up drops the list, which then starts again. */
    method FindDev(sections: seq<seq<Stmt>>, ghost c: Conf)
      requires Is(c) && c.devices == [] && forall k :: 0 <= k < |c.acls| ==> c.acls[k] in lists
      modifies devices, devices.repr, lists
      ensures Is(FoundAll(c, sections)) && Renewed()
    {
      assert sections[..0] == [];
      for i := 0 to |sections|
        invariant Is(FoundAll(c, sections[..i])) && Renewed()
      {
        FindNext(sections, i, c);
      }
      assert sections[..|sections|] == sections;
    }

    /** One section of the file. */
    method FindNext(sections: seq<seq<Stmt>>, i: nat, ghost c: Conf)
      requires i < |sections| && Is(FoundAll(c, sections[..i]))
      requires forall k :: 0 <= k < |c.acls| ==> c.acls[k] in lists
      modifies devices, devices.repr, lists
      ensures Is(FoundAll(c, sections[..i + 1])) && Renewed()
    {
      FoundNext(c, sections, i);
      FindOne(sections[i], FoundAll(c, sections[..i]));
    }

    /** Its loop body. */
    method FindOne(stmts: seq<Stmt>, ghost c: Conf)
      requires Is(c) && forall k :: 0 <= k < |c.acls| ==> c.acls[k] in lists
      modifies devices, devices.repr, lists
      ensures Is(Found(c, stmts)) && Renewed()
    {
      ghost var p := ParseSection(c.ifaces, c.acls, c.refs, stmts);
      var d, ok := ParseDev(stmts, c);
      ListOrDrop(d, ok, c.(refs := p.refs));
    }

    /** The new device goes to the end of the list, or the list goes. */
    method ListOrDrop(d: Device, ok: bool, ghost c: Conf)
      requires Is(c) && d !in devices.members && d != devdefault
      modifies devices, devices.repr
      ensures Is(c.(devices := if ok then c.devices + [d.Value()] else [])) && d.Value() == old(d.Value())
      ensures forall l :: l in devices.repr ==> l in old(devices.repr) || fresh(l)
      ensures devices.members <= old(devices.members) + {d} && intlist.repr == old(intlist.repr)
    {
      if ok {
        Admit(d, c);
        AppendDevice(d, c);
      } else {
        DropDevices(c);
      }
    }

    /** parseDEV returned NULL, and findDEV goes on with that as its list. */
    method DropDevices(ghost c: Conf)
      requires Is(c)
      modifies devices
      ensures Is(c.(devices := [])) && Kept()
    {
      devices.Drop();
    }

    /* ---- The device list ---- */

    /** Unlinks a link of the device list, and touches nothing else. */
    method UnlinkLink(l: Link<Device>, ghost k: nat)
      requires Sound() && k < |devices.spine| && devices.spine[k] == l
      modifies devices, devices.repr
      ensures devices.items == Without(old(devices.items), k) && devices.spine == Without(old(devices.spine), k)
      ensures Sound() && l.next == old(l.next)
      ensures Elsewhere() == old(Elsewhere()) && Kept()
    {
      DistinctWithout(devices.items, k);
      devices.Unlink(l, k);
    }

    /** Unlinks the device at a place of the list. */
    method UnlinkDevice(l: Link<Device>, ghost k: nat, ghost c: Conf)
      requires Is(c) && k < |c.devices| && devices.spine[k] == l
      modifies devices, devices.repr
      ensures Is(c.(devices := Without(c.devices, k)))
      ensures devices.items == Without(old(devices.items), k) && devices.spine == Without(old(devices.spine), k)
      ensures l.next == old(l.next) && Kept()
    {
      UnlinkLink(l, k);
    }

    /** Makes a new device one of those that may be listed. */
    ghost method Admit(d: Device, c: Conf)
      requires Is(c) && d != devdefault
      modifies devices`members
      ensures Is(c) && devices.members == old(devices.members) + {d}
    {
      devices.Admit(d);
    }

    /** Links a new device at the end of the list. */
    method AppendDevice(d: Device, ghost c: Conf)
      requires Is(c) && d in devices.members && d !in devices.items
      modifies devices, devices.repr
      ensures Is(c.(devices := c.devices + [d.Value()])) && Grown()
    {
      devices.Append(d);
    }

    /* ---- The API requests ---- */

    /** The test for the devices that a request means. */
    method Meets(d: Device, info: Info, ghost v: Dev, ghost c: Conf) returns (yes: bool)
      requires Is(c) && d.Value() == v
      ensures Is(c) && (yes <==> Matches(c.ifaces, v, info))
    {
      if d.slot != info.slot || d.shelf != info.shelf {
        return false;
      }
      if info.ifname == "" {
        return true;
      }
      var i := ReferenceInt(info.ifname, c);
      return d.iface == i;
    }

    /** The first loop of processTARGET_DEL. */
    method CountHits(info: Info, ghost c: Conf) returns (cnt: nat)
      requires Is(c)
      ensures Is(c) && cnt == Hits(c.ifaces, c.devices, info, |c.devices|)
    {
      ghost var k, n := 0, |c.devices|;
      var l := devices.first;
      cnt := 0;
      while l != null
        invariant Is(c) && k <= n && l == devices.At(k)
        invariant cnt == Hits(c.ifaces, c.devices, info, k)
        decreases n - k
      {
        assert l.item == devices.items[k];
        var yes := Meets(l.item, info, c.devices[k], c);
        if yes {
          cnt := cnt + 1;
        }
        devices.NextAt(k);
        l := l.next;
        k := k + 1;
      }
    }

    /** The body of the second loop: a device that is meant is unlinked, and the walk goes on from it. */
    method UnlinkIfMet(l: Link<Device>, info: Info, ghost p: nat, ghost c: Conf)
        returns (next: Link?<Device>, met: bool)
      requires Is(c) && p < |c.devices| && devices.spine[p] == l
      modifies devices, devices.repr
      ensures met <==> Matches(c.ifaces, c.devices[p], info)
      ensures if met then Is(c.(devices := Without(c.devices, p))) && next == devices.At(p)
              else Is(c) && next == devices.At(p + 1)
      ensures devices.items == (if met then Without(old(devices.items), p) else old(devices.items)) && Kept()
    {
      assert l.item == devices.items[p];
      devices.NextAt(p);
      next := l.next;
      met := Meets(l.item, info, c.devices[p], c);
      if met {
        UnlinkDevice(l, p, c);
      }
    }

    /** Inside the second loop of processTARGET_DEL: place `h` is still to come, or unlinked. */
    ghost predicate HitState(l: Link?<Device>, hit: Device?, k: nat, h: nat, c: Conf, c1: Conf, items: seq<Device>)
      reads devices, devices.repr, devices.members, devdefault, intlist, intlist.repr, ints, lists
      requires h < |items|
    {
      if k <= h then Is(c) && l == devices.At(k) && hit == null && devices.items == items
      else Is(c1) && l == devices.At(k - 1) && hit == items[h]
    }

    /** Its loop body. */
    method HitStep(l: Link<Device>, info: Info, hit: Device?,
                   ghost k: nat, ghost h: nat, ghost c: Conf, ghost c1: Conf, ghost items: seq<Device>)
        returns (next: Link?<Device>, hit': Device?)
      requires SoleHit(c, info, h) && c1 == c.(devices := Without(c.devices, h)) && k < |c.devices|
      requires h < |items| && HitState(l, hit, k, h, c, c1, items)
      modifies devices, devices.repr
      ensures HitState(next, hit', k + 1, h, c, c1, items) && Kept()
    {
      HitOrNot(c, info, h, k);
      ghost var p, cur := if k <= h then k else k - 1, if k <= h then c else c1;
      assert l.item == devices.items[p] && cur.devices[p] == c.devices[k];
      var met;
      next, met := UnlinkIfMet(l, info, p, cur);
      hit' := if met then l.item else hit;
    }

    /** The second loop, which goes on after it has unlinked the device, at the only place that the request
        means. */
    method UnlinkHit(info: Info, ghost c: Conf, ghost h: nat) returns (removed: Device)
      requires Is(c) && SoleHit(c, info, h)
      modifies devices, devices.repr
      ensures Is(c.(devices := Without(c.devices, h))) && removed == old(devices.items[h]) && Kept()
    {
      ghost var k, c1, items := 0, c.(devices := Without(c.devices, h)), devices.items;
      var l := devices.first;
      var hit: Device? := null;
      while l != null
        invariant k <= |c.devices| && HitState(l, hit, k, h, c, c1, items) && Kept()
        decreases |c.devices| - k
      {
        l, hit := HitStep(l, info, hit, k, h, c, c1, items);
        k := k + 1;
      }
      removed := hit;
    }

    /** processTARGET_DEL */
    method TargetDel(v: Version, info: Info, ghost c: Conf) returns (o: Outcome)
      requires Is(c) && ClosedConf(c, ints, lists)
      modifies devices, devices.repr, ints
      ensures Is(Del(v, c, info).0) && o == Del(v, c, info).1 && Kept()
    {
      ghost var ds := c.devices;
      var cnt := CountHits(info, c);
      if cnt != 1 {
        return Failure;
      }
      ghost var h := Hit(c.ifaces, ds, info, |ds|);
      HitsOne(c.ifaces, ds, info, |ds|, h);
      assert devices.items[h].Value() == ds[h];
      var removed := UnlinkHit(info, c, h);
      o := ReleaseInterface(v, removed, c.(devices := Without(ds, h)));
    }

    /** The end of processTARGET_DEL. */
    method ReleaseInterface(v: Version, removed: Device, ghost c: Conf) returns (o: Outcome)
      requires Is(c) && (removed.iface == null || removed.iface in ints)
      modifies ints
      ensures o == (if v == AsWritten || removed.iface == null then Crashed else Done)
      ensures Is(if o == Crashed then c else c.(uses := Bump(c.uses, removed.iface, -1)))
      ensures Kept() && removed.iface == old(removed.iface)
    {
      if v == AsWritten || removed.iface == null {
        return Crashed;
      }
      IntRefDown(removed.iface, c);
      return Done;
    }

    /** The test for a clash with a listed device. */
    method FindClash(d: Device, ghost c: Conf) returns (found: bool)
      requires Is(c)
      ensures Is(c) && (found <==> ClashesWith(c.devices, d.Value()))
    {
      ghost var ds, k := c.devices, 0;
      var l := devices.first;
      while l != null
        invariant k <= |ds| && l == devices.At(k)
        invariant forall i :: 0 <= i < k ==> !Clash(ds[i], d.Value())
        decreases |ds| - k
      {
        var e := l.item;
        assert e.Value() == ds[k];
        if e.slot == d.slot && e.shelf == d.shelf {
          if e.iface == d.iface || e.target != d.target {
            assert Clash(ds[k], d.Value());
            return true;
          }
        }
        devices.NextAt(k);
        l := l.next;
        k := k + 1;
      }
      return false;
    }

    /** Defaults for a device that is not listed. */
    method Adopt(d: Device, ghost c: Conf)
      requires Is(c) && d !in devices.members && d != devdefault
      modifies d, devdefault
      ensures d.Value() == Filled(old(d.Value()), c.dflt).0 && Is(c.(dflt := Filled(old(d.Value()), c.dflt).1))
    {
      DevDefaults(d);
    }

    /** The new device, with its defaults. */
    method NewDevice(info: Info, ghost filled: (Dev, Option<Dev>), ghost c: Conf) returns (d: Device)
      requires Is(c) && filled == Filled(Fresh(c.ifaces, info), c.dflt)
      modifies devdefault
      ensures fresh(d) && d.Value() == filled.0 && Is(c.(dflt := filled.1)) && Kept()
    {
      var iface: Interface? := null;
      if info.ifname != "" {
        iface := ReferenceInt(info.ifname, c);
      }
      d := new Device(info, iface);
      Adopt(d, c);
    }

    method MakeDevice(info: Info, ghost filled: (Dev, Option<Dev>), ghost c: Conf) returns (d: Device)
      requires Is(c) && ClosedConf(c, ints, lists) && filled == Filled(Fresh(c.ifaces, info), c.dflt)
      modifies devdefault, devices`members
      ensures fresh(d) && d !in devices.items && devices.members == old(devices.members) + {d}
      ensures d.Value() == filled.0 && Is(c.(dflt := filled.1)) && (d.iface == null || d.iface in ints)
    {
      d := NewDevice(info, filled, c);
      Admit(d, c.(dflt := filled.1));
    }

    /** Starts a device and lists it. */
    method StartAndList(d: Device, start: Start, ghost c: Conf) returns (o: Outcome)
      requires Is(c) && d in devices.members && d !in devices.items && (d.iface == null || d.iface in ints)
      modifies devices, devices.repr, ints
      ensures Is(Launch(c, d.Value(), start).0) && o == Launch(c, d.Value(), start).1
      ensures Grown()
    {
      if start == NoFile {
        return Failure;
      }
      if d.iface == null {
        return Crashed;
      }
      ghost var v := d.Value();
      var ran := StartDevice(d, start, c);
      if !ran {
        BumpBack(c.uses, v.iface);
        return Failure;
      }
      AppendDevice(d, c.(uses := Bump(c.uses, v.iface, 1)));
      return Done;
    }

    /** The clash test and the start of a new device. */
    method AddMade(d: Device, start: Start, ghost c: Conf) returns (o: Outcome, ghost c': Conf)
      requires Is(c) && d in devices.members && d !in devices.items && (d.iface == null || d.iface in ints)
      modifies devices, devices.repr, ints
      ensures (c', o) == Enlist(c, d.Value(), start) && Is(c')
      ensures Grown()
    {
      c' := Enlist(c, d.Value(), start).0;
      var clash := FindClash(d, c);
      if clash {
        return Failure, c;
      }
      o := StartAndList(d, start, c);
    }

    /** processTARGET_ADD */
    method TargetAdd(info: Info, start: Start, ghost c: Conf) returns (o: Outcome)
      requires Is(c) && ClosedConf(c, ints, lists)
      modifies devices, devices.repr, devdefault, ints
      ensures Is(Add(c, info, start).0) && o == Add(c, info, start).1
      ensures Renewed()
    {
      ghost var filled := Filled(Fresh(c.ifaces, info), c.dflt);
      var d := MakeDevice(info, filled, c);
      ghost var c';
      o, c' := AddMade(d, start, c.(dflt := filled.1));
    }

    /** One role of processTARGET_SETACL. */
    method SetRole(cur: AclHeader?, name: string, ghost c: Conf)
        returns (a: AclHeader?, known: bool, ghost c': Conf)
      requires Is(c) && ClosedConf(c, ints, lists) && (cur == null || cur in lists)
      modifies lists
      ensures c' == c.(refs := Registry.SetRole(c.acls, c.refs, cur, name).0) && Is(c')
      ensures a == Registry.SetRole(c.acls, c.refs, cur, name).1 && (known <==> Known(c.acls, name))
    {
      c' := c;
      if cur != null {
        AclRefDown(cur, c);
        c' := c.(refs := Down(c.refs, cur));
      }
      a, known := null, true;
      if name != "" {
        a := ReferenceAcl(name);
        known := a != null;
        if a != null {
          AclRefUp(a, c');
          c' := c'.(refs := Bump(c'.refs, a, 1));
        }
      }
    }

    /** Two of the roles. */
    method TwoRoles(x: AclHeader?, y: AclHeader?, nx: string, ny: string, ghost c: Conf)
        returns (x': AclHeader?, y': AclHeader?, known: bool, ghost c': Conf)
      requires Is(c) && ClosedConf(c, ints, lists) && (x == null || x in lists) && (y == null || y in lists)
      modifies lists
      ensures var (refs1, a) := Registry.SetRole(c.acls, c.refs, x, nx);
              var (refs2, b) := Registry.SetRole(c.acls, refs1, y, ny);
              c' == c.(refs := refs2) && Is(c') && x' == a && y' == b
      ensures known <==> Known(c.acls, nx) && Known(c.acls, ny)
    {
      var k1, k2;
      ghost var c1;
      x', k1, c1 := SetRole(x, nx, c);
      y', k2, c' := SetRole(y, ny, c1);
      known := k1 && k2;
    }

    /** The roles of one device, before they are stored. */
    method NewRoles(w: AclHeader?, r: AclHeader?, cs: AclHeader?, cr: AclHeader?, names: Names, ghost c: Conf)
        returns (w': AclHeader?, r': AclHeader?, cs': AclHeader?, cr': AclHeader?, known: bool)
      requires Is(c) && ClosedConf(c, ints, lists)
      requires (w == null || w in lists) && (r == null || r in lists)
      requires (cs == null || cs in lists) && (cr == null || cr in lists)
      modifies lists
      ensures var (refs, roles) := SetRoles(c.acls, c.refs, Roles(w, r, cs, cr), names);
              Is(c.(refs := refs)) && Roles(w', r', cs', cr') == roles
      ensures known <==> AllKnown(c.acls, names)
    {
      var k1, k2;
      ghost var c1, c2;
      w', r', k1, c1 := TwoRoles(w, r, names.wacl, names.racl, c);
      cs', cr', k2, c2 := TwoRoles(cs, cr, names.cfgsetacl, names.cfgracl, c1);
      known := k1 && k2;
    }

    method StoreRoles(d: Device, w: AclHeader?, r: AclHeader?, cs: AclHeader?, cr: AclHeader?)
      modifies d
      ensures d.Value() == old(d.Value()).(roles := Roles(w, r, cs, cr))
    {
      d.wacl, d.racl, d.cfgsetacl, d.cfgracl := w, r, cs, cr;
    }

    /** The role fields of the device at a place of the list. */
    method Attach(d: Device, w: AclHeader?, r: AclHeader?, cs: AclHeader?, cr: AclHeader?, ghost k: nat, ghost c: Conf)
      requires Is(c) && k < |c.devices| && devices.items[k] == d
      modifies d
      ensures Is(c.(devices := c.devices[k := c.devices[k].(roles := Roles(w, r, cs, cr))]))
    {
      StoreRoles(d, w, r, cs, cr);
    }

    /** The body of processTARGET_SETACL for a matching device. */
    method SetDevice(d: Device, names: Names, ghost k: nat, ghost c: Conf) returns (known: bool)
      requires Is(c) && ClosedConf(c, ints, lists) && k < |c.devices| && devices.items[k] == d
      modifies d, lists
      ensures var (refs, roles) := SetRoles(c.acls, c.refs, c.devices[k].roles, names);
              Is(c.(devices := c.devices[k := c.devices[k].(roles := roles)], refs := refs))
      ensures known <==> AllKnown(c.acls, names)
    {
      assert d.Value() == c.devices[k];
      var w, r, cs, cr;
      w, r, cs, cr, known := NewRoles(d.wacl, d.racl, d.cfgsetacl, d.cfgracl, names, c);
      Attach(d, w, r, cs, cr, k, c.(refs := SetRoles(c.acls, c.refs, c.devices[k].roles, names).0));
    }

    /** The loop body of processTARGET_SETACL. */
    method SetIfMet(d: Device, info: Info, names: Names, ghost k: nat, ghost c: Conf, ghost c': Conf)
        returns (failed: bool)
      requires Is(c) && ClosedConf(c, ints, lists) && SetStep(c, info, names, k, c') && devices.items[k] == d
      modifies d, lists
      ensures Is(c') && (failed <==> FailsAt(c, info, names, k))
      ensures devices.items == old(devices.items) && devices.spine == old(devices.spine) && Kept()
    {
      failed := false;
      var yes := Meets(d, info, c.devices[k], c);
      if yes {
        var known := SetDevice(d, names, k, c);
        failed := !known;
      }
    }

    /** processTARGET_SETACL */
    method TargetSetAcl(info: Info, names: Names, ghost c: Conf) returns (o: Outcome)
      requires Is(c) && ClosedConf(c, ints, lists)
      modifies devices.members, lists
      ensures Is(SetAcl(c, info, names).0) && o == SetAcl(c, info, names).1 && Kept()
    {
      ghost var cs := SetAclsSteps(c, info, names, ints, lists);
      var failed := SetEach(info, names, cs);
      FailsHits(c, cs, info, names, |c.devices|);
      o := if failed then Failure else Done;
    }

    /** Its loop; `cs` are the values that the configuration goes through. */
    method SetEach(info: Info, names: Names, ghost cs: seq<Conf>) returns (failed: bool)
      requires cs != [] && Is(cs[0]) && |cs| == |cs[0].devices| + 1
      requires forall k :: 0 <= k < |cs| - 1 ==>
                 ClosedConf(cs[k], ints, lists) && SetStep(cs[k], info, names, k, cs[k + 1])
      modifies devices.members, lists
      ensures Is(cs[|cs| - 1]) && (failed <==> Fails(cs, info, names, |cs| - 1)) && Kept()
    {
      ghost var k, items := 0, devices.items;
      var l := devices.first;
      failed := false;
      while l != null
        invariant devices.items == items && |items| == |cs| - 1 && Kept()
        invariant k < |cs| && Is(cs[k]) && l == devices.At(k)
        invariant failed <==> Fails(cs, info, names, k)
        decreases |cs| - k
      {
        failed, l := SetNext(l, info, names, k, cs, failed);
        k := k + 1;
      }
    }

    /** One round of the walk. */
    method SetNext(l: Link<Device>, info: Info, names: Names, ghost k: nat, ghost cs: seq<Conf>, before: bool)
        returns (failed: bool, next: Link?<Device>)
      requires k + 1 < |cs| && Is(cs[k]) && ClosedConf(cs[k], ints, lists)
      requires SetStep(cs[k], info, names, k, cs[k + 1]) && l == devices.At(k)
      requires before <==> Fails(cs, info, names, k)
      modifies devices.members, lists
      ensures Is(cs[k + 1]) && (failed <==> Fails(cs, info, names, k + 1))
      ensures next == devices.At(k + 1) && devices.items == old(devices.items) && Kept()
    {
      devices.NextAt(k);
      next := l.next;
      failed := SetIfMet(l.item, info, names, k, cs[k], cs[k + 1]);
      failed := before || failed;
    }

    /* ---- The interface list ---- */

    /** Unlinks the interface at a place of the list. */
    method UnlinkInterface(l: Link<Interface>, ghost p: nat, ghost c: Conf)
      requires Is(c) && p < |c.ifaces| && intlist.spine[p] == l
      modifies intlist, intlist.repr
      ensures Is(c.(ifaces := Without(c.ifaces, p)))
      ensures intlist.spine == Without(old(intlist.spine), p) && Kept()
    {
      UnlinkIntLink(l, p, c.devices);
    }

    /** Unlinks a link of the interface list, and touches nothing else. */
    method UnlinkIntLink(l: Link<Interface>, ghost p: nat, ghost ds: seq<Dev>)
      requires Sound() && Shows(ds) && p < |intlist.spine| && intlist.spine[p] == l
      modifies intlist, intlist.repr
      ensures intlist.items == Without(old(intlist.items), p) && intlist.spine == Without(old(intlist.spine), p)
      ensures Sound() && Shows(ds) && Dflt() == old(Dflt()) && Uses() == old(Uses()) && Refs() == old(Refs()) && Kept()
    {
      intlist.Unlink(l, p);
    }

    /** The loop body of processINTERFACE_DEL; `stops` are the interfaces whose thread can be cancelled and
        joined. */
    method DelOne(l: Link<Interface>, name: string, stops: set<Interface>, o: Outcome,
                  ghost p: nat, ghost c: Conf, ghost next: Progress)
        returns (o': Outcome)
      requires Is(c) && ClosedConf(c, ints, lists) && p < |c.ifaces| && intlist.spine[p] == l
      requires KeptStep(Progress(c, p, o), name, stops, next)
      modifies intlist, intlist.repr
      ensures Is(next.c) && o' == next.o
      ensures intlist.At(next.p) == old(l.next)
      ensures Kept()
    {
      var i := l.item;
      assert i == c.ifaces[p] && Get(c.uses, i) == i.refcnt;
      intlist.NextAt(p);
      o' := o;
      if i.name != name && i.refcnt < 1 {
        if i in stops {
          UnlinkInterface(l, p, c);
          o' := Done;
        } else {
          o' := Failure;
        }
      }
    }

    /** processINTERFACE_DEL */
    method InterfaceDel(name: string, stops: set<Interface>, ghost c: Conf) returns (o: Outcome)
      requires Is(c) && ClosedConf(c, ints, lists)
      modifies intlist, intlist.repr
      ensures Is(DelInterface(c, name, stops).0) && o == DelInterface(c, name, stops).1 && Kept()
    {
      ghost var ss := KeptSteps(c, name, stops, ints, lists);
      o := DelEach(name, stops, ss);
    }

    /** Its loop; `ss` are the states that it goes through. */
    method DelEach(name: string, stops: set<Interface>, ghost ss: seq<Progress>) returns (o: Outcome)
      requires ss != [] && Is(ss[0].c) && ss[0].p == 0 && ss[0].o == Failure && |ss| == |ss[0].c.ifaces| + 1
      requires forall k :: 0 <= k < |ss| - 1 ==>
                 ClosedConf(ss[k].c, ints, lists) && KeptStep(ss[k], name, stops, ss[k + 1])
      requires forall k :: 0 <= k < |ss| ==> ss[k].p + (|ss| - 1 - k) == |ss[k].c.ifaces|
      modifies intlist, intlist.repr
      ensures Is(ss[|ss| - 1].c) && o == ss[|ss| - 1].o && Kept()
    {
      ghost var k := 0;
      var l := intlist.first;
      o := Failure;
      while l != null
        invariant k < |ss| && Is(ss[k].c) && o == ss[k].o && l == intlist.At(ss[k].p)
        invariant Kept()
        decreases |ss| - k
      {
        assert KeptStep(ss[k], name, stops, ss[k + 1]);
        var next := l.next;
        o := DelOne(l, name, stops, o, ss[k].p, ss[k].c, ss[k + 1]);
        l := next;
        k := k + 1;
      }
    }

    /* ---- Runs of requests ---- */

    /** One request. */
    method Execute(v: Version, step: Step, ghost c: Conf) returns (o: Outcome)
      requires Is(c) && ClosedConf(c, ints, lists)
      modifies devices, devices.repr, devices.members, devdefault, intlist, intlist.repr, ints, lists
      ensures Is(Do(v, c, step).0) && o == Do(v, c, step).1 && ClosedConf(Do(v, c, step).0, ints, lists) && Renewed()
    {
      StepClosed(v, c, step, ints, lists);
      match step
      case AddTarget(info, start) => o := TargetAdd(info, start, c);
      case DelTarget(info) => o := TargetDel(v, info, c);
      case SetTargetAcl(info, names) => o := TargetSetAcl(info, names, c);
      case DelInt(name, stops) => o := InterfaceDel(name, stops, c);
    }

    /** The API thread, which handles one request after the other until the daemon crashes: what it makes of
        the object is what the theorems about runs speak of. */
    method ExecuteAll(v: Version, steps: seq<Step>, ghost c: Conf) returns (crashed: bool)
      requires Is(c) && ClosedConf(c, ints, lists)
      modifies devices, devices.repr, devices.members, devdefault, intlist, intlist.repr, ints, lists
      ensures Is(Run(v, c, steps).0) && crashed == Run(v, c, steps).1
    {
      crashed := false;
      var k := 0;
      ghost var cur := c;
      assert steps[..0] == [];
      while k < |steps| && !crashed
        invariant k <= |steps| && (cur, crashed) == Run(v, c, steps[..k])
        invariant Is(cur) && ClosedConf(cur, ints, lists) && Renewed()
      {
        RunNext(v, c, steps, k);
        var o := Execute(v, steps[k], cur);
        cur := Do(v, cur, steps[k]).0;
        crashed := o == Crashed;
        k := k + 1;
      }
      RunStops(v, c, steps, k);
    }
  }
}
