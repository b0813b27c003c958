/** The run-time registry (api.c): adding and deleting targets, setting access lists and deleting
    interfaces, as functions on the configuration, with the two reference counts they keep. The code
    that computes them is in module Configuration. */
module Registry {
  import opened Common
  import opened Aoe
  import opened Lba
  import opened DeviceConfig

  /** `AsWritten` dereferences the loop pointer of processTARGET_DEL after the loop has run it to NULL;
      `Intended` is the same code with the interface of the removed device in its place. */
  datatype Version = AsWritten | Intended

  /** How far qaoed_startdevice gets. */
  datatype Start = NoFile | NoThread | Started

  /** struct qaoed_target_info; an empty name stands for no interface. */
  datatype Info = Info(target: string, shelf: uint16, slot: byte, ifname: string, writecache: int, broadcast: int)

  /** The access-list names of a SETACL request; an empty name clears the role. */
  datatype Names = Names(wacl: string, racl: string, cfgsetacl: string, cfgracl: string)

  /** `uses` and `refs` hold the reference counts of interfaces and access lists. */
  datatype Conf = Conf(devices: seq<Dev>, dflt: Option<Dev>, ifaces: seq<Interface>, acls: seq<AclHeader>,
                       uses: map<Interface?, int>, refs: map<AclHeader?, int>)

  datatype Outcome = Done | Failure | Crashed

  function Get<K>(m: map<K, int>, k: K): int
  {
    if k in m then m[k] else 0
  }

  function Bump<K>(m: map<K, int>, k: K, delta: int): (r: map<K, int>)
  {
    m[k := Get(m, k) + delta]
  }

  lemma BumpBack<K>(m: map<K, int>, k: K)
    requires k in m
    ensures Bump(Bump(m, k, 1), k, -1) == m
  {
  }

  /** referenceint: the first interface of that name. */
  function LookupInt(ifaces: seq<Interface>, name: string): (r: Interface?)
    ensures r != null ==> r in ifaces && r.name == name
  {
    if ifaces == [] then null
    else if ifaces[0].name == name then ifaces[0]
    else LookupInt(ifaces[1..], name)
  }

  /** referenceacl */
  function LookupAcl(acls: seq<AclHeader>, name: string): (r: AclHeader?)
    ensures r != null ==> r in acls && r.name == name
  {
    if acls == [] then null
    else if acls[0].name == name then acls[0]
    else LookupAcl(acls[1..], name)
  }

  /** The devices that a request means. */
  predicate Matches(ifaces: seq<Interface>, d: Dev, info: Info)
  {
    d.slot == info.slot && d.shelf == info.shelf
    && (info.ifname == "" || d.iface == LookupInt(ifaces, info.ifname))
  }

  /* ---- qaoed_defaultconfig ---- */

  /** The device at a place of the list gets its defaults. */
  ghost predicate DefaultsStep(c: Conf, k: nat, c': Conf)
  {
    k < |c.devices|
    && var (v, f) := Filled(c.devices[k], c.dflt); c' == c.(devices := c.devices[k := v], dflt := f)
  }

  /** The first `k` devices filled in. */
  function Halfway(c: Conf, filled: seq<Dev>, dflt: Option<Dev>, k: nat): Conf
    requires k <= |filled| == |c.devices|
  {
    c.(devices := filled[..k] + c.devices[k..], dflt := dflt)
  }

  lemma HalfwayStep(c: Conf, filled: seq<Dev>, f: Option<Dev>, k: nat, f': Option<Dev>)
    requires k < |filled| == |c.devices| && (filled[k], f') == Filled(c.devices[k], f)
    ensures DefaultsStep(Halfway(c, filled, f, k), k, Halfway(c, filled, f', k + 1))
  {
    assert filled[..k + 1] + c.devices[k + 1..] == (filled[..k] + c.devices[k..])[k := filled[k]];
  }

  /** One device at a time leads to all of them. */
  lemma DefaultsSteps(c: Conf) returns (cs: seq<Conf>)
    ensures |cs| == |c.devices| + 1 && cs[0] == c
    ensures cs[|c.devices|]
         == c.(devices := FilledAll(c.devices, c.dflt).0, dflt := FilledAll(c.devices, c.dflt).1)
    ensures forall k :: 0 <= k < |c.devices| ==> DefaultsStep(cs[k], k, cs[k + 1])
  {
    var ds, n := c.devices, |c.devices|;
    var filled := FilledAll(ds, c.dflt).0;
    var counters := FilledSteps(ds, c.dflt);
    cs := seq(n + 1, k requires 0 <= k <= n => Halfway(c, filled, counters[k], k));
    assert filled[..0] + ds[0..] == ds && filled[..n] + ds[n..] == filled;
    forall k | 0 <= k < n ensures DefaultsStep(cs[k], k, cs[k + 1]) {
      assert (filled[k], counters[k + 1]) == Filled(ds[k], counters[k]);
      HalfwayStep(c, filled, counters[k], k, counters[k + 1]);
    }
  }

  /* ---- processTARGET_ADD ---- */

  /** The new device before defaults. */
  function Fresh(ifaces: seq<Interface>, info: Info): Dev
  {
    Dev(Some(info.target), info.shelf, info.slot, if info.ifname == "" then null else LookupInt(ifaces, info.ifname),
        info.writecache, info.broadcast, Roles(null, null, null, null))
  }

  predicate ClashesWith(ds: seq<Dev>, d: Dev)
  {
    exists i :: 0 <= i < |ds| && Clash(ds[i], d)
  }

  /** qaoed_startdevice, and the device at the end of the list if it starts. Starting counts the
      interface, which must not be NULL. */
  function Launch(c: Conf, d: Dev, start: Start): (Conf, Outcome)
  {
    if start == NoFile then (c, Failure)
    else if d.iface == null then (c, Crashed)
    else if start == NoThread then (c.(uses := Bump(Bump(c.uses, d.iface, 1), d.iface, -1)), Failure)
    else (c.(devices := c.devices + [d], uses := Bump(c.uses, d.iface, 1)), Done)
  }

  /** A new device that does not clash is started and listed. */
  function Enlist(c: Conf, d: Dev, start: Start): (Conf, Outcome)
  {
    if ClashesWith(c.devices, d) then (c, Failure) else Launch(c, d, start)
  }

  function Add(c: Conf, info: Info, start: Start): (Conf, Outcome)
  {
    var (d, dflt) := Filled(Fresh(c.ifaces, info), c.dflt);
    Enlist(c.(dflt := dflt), d, start)
  }

  /* ---- processTARGET_DEL ---- */

  /** How many of the first `n` devices match. */
  function Hits(ifaces: seq<Interface>, ds: seq<Dev>, info: Info, n: nat): nat
    requires n <= |ds|
  {
    if n == 0 then 0 else Hits(ifaces, ds, info, n - 1) + One(Matches(ifaces, ds[n - 1], info))
  }

  /** The first match. */
  function Hit(ifaces: seq<Interface>, ds: seq<Dev>, info: Info, n: nat): (k: nat)
    requires n <= |ds| && Hits(ifaces, ds, info, n) > 0
    ensures k < n && Matches(ifaces, ds[k], info) && Hits(ifaces, ds, info, k) == 0
  {
    if Hits(ifaces, ds, info, n - 1) > 0 then Hit(ifaces, ds, info, n - 1) else n - 1
  }

  function Without<T>(s: seq<T>, k: nat): (r: seq<T>)
    requires k < |s|
    ensures |r| == |s| - 1 && forall i :: 0 <= i < |r| ==> r[i] == if i < k then s[i] else s[i + 1]
  {
    s[..k] + s[k + 1..]
  }

  function Del(v: Version, c: Conf, info: Info): (Conf, Outcome)
  {
    var ds := c.devices;
    if Hits(c.ifaces, ds, info, |ds|) != 1 then (c, Failure)
    else
      var k := Hit(c.ifaces, ds, info, |ds|);
      var c1 := c.(devices := Without(ds, k));
      if v == AsWritten || ds[k].iface == null then (c1, Crashed)
      else (c1.(uses := Bump(c.uses, ds[k].iface, -1)), Done)
  }

  /* ---- processTARGET_SETACL ---- */

  function Down(refs: map<AclHeader?, int>, a: AclHeader?): map<AclHeader?, int>
  {
    if a == null then refs else Bump(refs, a, -1)
  }

  /** One role: the old list is released, the named one looked up and taken. */
  function SetRole(acls: seq<AclHeader>, refs: map<AclHeader?, int>, cur: AclHeader?, name: string)
    : (map<AclHeader?, int>, AclHeader?)
  {
    var a := if name == "" then null else LookupAcl(acls, name);
    (if a == null then Down(refs, cur) else Bump(Down(refs, cur), a, 1), a)
  }

  function SetRoles(acls: seq<AclHeader>, refs: map<AclHeader?, int>, r: Roles, names: Names)
    : (map<AclHeader?, int>, Roles)
  {
    var (refs1, wacl) := SetRole(acls, refs, r.wacl, names.wacl);
    var (refs2, racl) := SetRole(acls, refs1, r.racl, names.racl);
    var (refs3, cfgsetacl) := SetRole(acls, refs2, r.cfgsetacl, names.cfgsetacl);
    var (refs4, cfgracl) := SetRole(acls, refs3, r.cfgracl, names.cfgracl);
    (refs4, Roles(wacl, racl, cfgsetacl, cfgracl))
  }

  /** The first `n` devices done. */
  function SetAcls(c: Conf, info: Info, names: Names, n: nat): (r: Conf)
    requires n <= |c.devices|
    ensures |r.devices| == |c.devices| && r.ifaces == c.ifaces && r.acls == c.acls
    ensures r.dflt == c.dflt && r.uses == c.uses
    ensures forall i :: 0 <= i < |c.devices| ==> r.devices[i].(roles := c.devices[i].roles) == c.devices[i]
    ensures forall i :: n <= i < |c.devices| ==> r.devices[i] == c.devices[i]
  {
    if n == 0 then c
    else
      var c1 := SetAcls(c, info, names, n - 1);
      var d := c.devices[n - 1];
      if !Matches(c.ifaces, d, info) then c1
      else
        var (refs, roles) := SetRoles(c.acls, c1.refs, d.roles, names);
        c1.(devices := c1.devices[n - 1 := d.(roles := roles)], refs := refs)
  }

  predicate Known(acls: seq<AclHeader>, name: string)
  {
    name == "" || LookupAcl(acls, name) != null
  }

  predicate AllKnown(acls: seq<AclHeader>, names: Names)
  {
    Known(acls, names.wacl) && Known(acls, names.racl) && Known(acls, names.cfgsetacl) && Known(acls, names.cfgracl)
  }

  /** A request that matches no device succeeds; one that matches fails if a name is unknown. */
  function SetAcl(c: Conf, info: Info, names: Names): (Conf, Outcome)
  {
    var n := |c.devices|;
    (SetAcls(c, info, names, n),
     if Hits(c.ifaces, c.devices, info, n) > 0 && !AllKnown(c.acls, names) then Failure else Done)
  }

  /* ---- processINTERFACE_DEL ---- */

  /** strcmp is taken for equality: the interfaces of any other name are candidates. */
  predicate Candidate(uses: map<Interface?, int>, i: Interface, name: string)
  {
    i.name != name && Get(uses, i) < 1
  }

  /** What is left of the list when the threads of the interfaces in `stops` can be stopped, and
      whether the last candidate, if any, was removed. */
  function Kept(uses: map<Interface?, int>, ifaces: seq<Interface>, name: string, stops: set<Interface>)
    : (r: (seq<Interface>, Outcome))
    ensures r.1 != Crashed
  {
    if ifaces == [] then ([], Failure)
    else
      var n := |ifaces| - 1;
      var i := ifaces[n];
      var (kept, o) := Kept(uses, ifaces[..n], name, stops);
      if !Candidate(uses, i, name) then (kept + [i], o)
      else if i in stops then (kept, Done)
      else (kept + [i], Failure)
  }

  function DelInterface(c: Conf, name: string, stops: set<Interface>): (Conf, Outcome)
  {
    var (kept, o) := Kept(c.uses, c.ifaces, name, stops);
    (c.(ifaces := kept), o)
  }

  /* ---- qaoed_validateconfig ---- */

  /** `files` are the names that stat finds. */
  ghost predicate Accepted(c: Conf, files: string -> bool)
  {
    && (forall i :: 0 <= i < |c.acls| ==> c.acls[i].logOK)
    && (forall i :: 0 <= i < |c.ifaces| ==> c.ifaces[i].logOK && c.ifaces[i].mtu != 0)
    && (forall i :: 0 <= i < |c.devices| ==> TargetOK(c.devices[i], files))
    && ValidConfig(c.devices)
  }

  ghost predicate ListsOK(c: Conf)
  {
    && (forall i :: 0 <= i < |c.acls| ==> c.acls[i].logOK)
    && (forall i :: 0 <= i < |c.ifaces| ==> c.ifaces[i].logOK && c.ifaces[i].mtu != 0)
  }

  ghost predicate EachOK(ds: seq<Dev>, files: string -> bool)
  {
    forall i :: 0 <= i < |ds| ==> TargetOK(ds[i], files) && Complete(ds[i])
  }

  /** The parts of validation. */
  lemma AcceptedParts(c: Conf, files: string -> bool)
    ensures Accepted(c, files) <==> ListsOK(c) && EachOK(c.devices, files) && ClearRows(c.devices, |c.devices|)
  {
    CompatibleRows(c.devices);
  }

  predicate TargetOK(d: Dev, files: string -> bool)
  {
    d.target.Some? && files(d.target.value)
  }

  /* ---- Runs ---- */

  datatype Step =
    | AddTarget(info: Info, start: Start)
    | DelTarget(info: Info)
    | SetTargetAcl(info: Info, names: Names)
    | DelInt(name: string, stops: set<Interface>)

  function Do(v: Version, c: Conf, step: Step): (Conf, Outcome)
  {
    match step
    case AddTarget(info, start) => Add(c, info, start)
    case DelTarget(info) => Del(v, c, info)
    case SetTargetAcl(info, names) => SetAcl(c, info, names)
    case DelInt(name, stops) => DelInterface(c, name, stops)
  }

  /** The configuration after a run, and whether the daemon has crashed on the way; then it stops. */
  function Run(v: Version, c: Conf, steps: seq<Step>): (Conf, bool)
  {
    if steps == [] then (c, false)
    else
      var n := |steps| - 1;
      var (before, crashed) := Run(v, c, steps[..n]);
      if crashed then (before, true)
      else
        var (after, o) := Do(v, before, steps[n]);
        (after, o == Crashed)
  }

  /** How many devices, from `k` on, start before one that does not. */
  function Running(results: seq<Start>, k: nat): (n: nat)
    requires k <= |results|
    ensures k <= n <= |results| && (n < |results| ==> results[n] != Started)
    ensures forall i :: k <= i < n ==> results[i] == Started
    decreases |results| - k
  {
    if k < |results| && results[k] == Started then Running(results, k + 1) else k
  }

  /** qaoed_devices: the first `n` configured devices are started, which counts their interfaces. */
  function StartAll(c: Conf, n: nat): (r: Conf)
    requires n <= |c.devices|
    ensures r == c.(uses := r.uses)
  {
    if n == 0 then c
    else
      var c1 := StartAll(c, n - 1);
      c1.(uses := Bump(c1.uses, c.devices[n - 1].iface, 1))
  }

  /** The device at a place is started. */
  ghost predicate StartStep(c: Conf, k: nat, c': Conf, ints: set<Interface>)
  {
    && k < |c.devices| && c.devices[k].iface != null && c.devices[k].iface in ints
    && c' == c.(uses := Bump(c.uses, c.devices[k].iface, 1))
  }

  lemma StartSteps(c: Conf, ints: set<Interface>) returns (cs: seq<Conf>)
    requires forall k :: 0 <= k < |c.devices| ==> c.devices[k].iface != null && c.devices[k].iface in ints
    ensures |cs| == |c.devices| + 1 && forall k :: 0 <= k < |cs| ==> cs[k] == StartAll(c, k)
    ensures forall k :: 0 <= k < |c.devices| ==> StartStep(cs[k], k, cs[k + 1], ints)
  {
    cs := seq(|c.devices| + 1, k requires 0 <= k <= |c.devices| => StartAll(c, k));
    forall k | 0 <= k < |c.devices| ensures StartStep(cs[k], k, cs[k + 1], ints) {
      StartAllNext(c, k);
    }
  }

  lemma StartAllNext(c: Conf, k: nat)
    requires k < |c.devices|
    ensures StartAll(c, k + 1) == StartAll(c, k).(uses := Bump(StartAll(c, k).uses, c.devices[k].iface, 1))
    ensures StartAll(c, k).devices == c.devices
  {
  }
}
