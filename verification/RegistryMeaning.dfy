/** What names, addresses, defaults and requests mean, said of the fields of the devices alone. */
module RegistryMeaning {
  import opened Common
  import opened DeviceConfig
  import opened Registry

  /* ---- Names ---- */

  /** The first list of that name, or NULL if there is none. */
  ghost predicate NamedAcl(acls: seq<AclHeader>, name: string, a: AclHeader?)
  {
    if a == null then forall k :: 0 <= k < |acls| ==> acls[k].name != name
    else exists k :: 0 <= k < |acls| && acls[k] == a && a.name == name
                     && forall j :: 0 <= j < k ==> acls[j].name != name
  }

  ghost predicate NamedInt(ifaces: seq<Interface>, name: string, i: Interface?)
  {
    if i == null then forall k :: 0 <= k < |ifaces| ==> ifaces[k].name != name
    else exists k :: 0 <= k < |ifaces| && ifaces[k] == i && i.name == name
                     && forall j :: 0 <= j < k ==> ifaces[j].name != name
  }

  lemma {:induction false} AclPlace(acls: seq<AclHeader>, name: string) returns (k: nat)
    ensures k <= |acls| && forall j :: 0 <= j < k ==> acls[j].name != name
    ensures if k == |acls| then LookupAcl(acls, name) == null
            else acls[k].name == name && LookupAcl(acls, name) == acls[k]
  {
    if acls == [] || acls[0].name == name {
      k := 0;
    } else {
      var n := AclPlace(acls[1..], name);
      k := n + 1;
    }
  }

  lemma {:induction false} IntPlace(ifaces: seq<Interface>, name: string) returns (k: nat)
    ensures k <= |ifaces| && forall j :: 0 <= j < k ==> ifaces[j].name != name
    ensures if k == |ifaces| then LookupInt(ifaces, name) == null
            else ifaces[k].name == name && LookupInt(ifaces, name) == ifaces[k]
  {
    if ifaces == [] || ifaces[0].name == name {
      k := 0;
    } else {
      var n := IntPlace(ifaces[1..], name);
      k := n + 1;
    }
  }

  lemma AclLookup(acls: seq<AclHeader>, name: string, a: AclHeader?)
    ensures NamedAcl(acls, name, a) <==> a == LookupAcl(acls, name)
  {
    var k := AclPlace(acls, name);
  }

  lemma IntLookup(ifaces: seq<Interface>, name: string, i: Interface?)
    ensures NamedInt(ifaces, name, i) <==> i == LookupInt(ifaces, name)
  {
    var k := IntPlace(ifaces, name);
  }

  /** The devices that a request means: those with its address and, if it names an interface, on that. */
  ghost predicate Meant(ifaces: seq<Interface>, d: Dev, info: Info)
  {
    d.shelf == info.shelf && d.slot == info.slot && (info.ifname == "" || NamedInt(ifaces, info.ifname, d.iface))
  }

  lemma MatchesMeant(ifaces: seq<Interface>, d: Dev, info: Info)
    ensures Matches(ifaces, d, info) <==> Meant(ifaces, d, info)
  {
    IntLookup(ifaces, info.ifname, d.iface);
  }

  /* ---- SETACL ---- */

  /** What a role is set to: nothing for an empty name. */
  ghost predicate SetTo(acls: seq<AclHeader>, name: string, a: AclHeader?)
  {
    if name == "" then a == null else NamedAcl(acls, name, a)
  }

  ghost predicate RolesSet(acls: seq<AclHeader>, names: Names, r: Roles)
  {
    && SetTo(acls, names.wacl, r.wacl) && SetTo(acls, names.racl, r.racl)
    && SetTo(acls, names.cfgsetacl, r.cfgsetacl) && SetTo(acls, names.cfgracl, r.cfgracl)
  }

  lemma RolesAreSet(acls: seq<AclHeader>, refs: map<AclHeader?, int>, r: Roles, names: Names)
    ensures RolesSet(acls, names, SetRoles(acls, refs, r, names).1)
  {
    var r' := SetRoles(acls, refs, r, names).1;
    AclLookup(acls, names.wacl, r'.wacl);
    AclLookup(acls, names.racl, r'.racl);
    AclLookup(acls, names.cfgsetacl, r'.cfgsetacl);
    AclLookup(acls, names.cfgracl, r'.cfgracl);
  }

  lemma {:induction false} RolesOfPlace(c: Conf, info: Info, names: Names, n: nat, k: nat)
    requires k < n <= |c.devices|
    ensures var (d, d') := (c.devices[k], SetAcls(c, info, names, n).devices[k]);
            if Meant(c.ifaces, d, info) then RolesSet(c.acls, names, d'.roles) else d' == d
  {
    MatchesMeant(c.ifaces, c.devices[k], info);
    if k < n - 1 {
      RolesOfPlace(c, info, names, n - 1, k);
    } else if Meant(c.ifaces, c.devices[k], info) {
      RolesAreSet(c.acls, SetAcls(c, info, names, k).refs, c.devices[k].roles, names);
    }
  }

  /** After SETACL each device that the request means has in each role the first list with the name given for
      that role, or none if the name is empty or unknown. Its other fields and all other devices stay. */
  lemma SetAclRoles(c: Conf, info: Info, names: Names, k: nat)
    requires k < |c.devices|
    ensures var c' := SetAcl(c, info, names).0;
            && |c'.devices| == |c.devices|
            && c'.devices[k] == c.devices[k].(roles := c'.devices[k].roles)
            && if Meant(c.ifaces, c.devices[k], info) then RolesSet(c.acls, names, c'.devices[k].roles)
               else c'.devices[k] == c.devices[k]
  {
    RolesOfPlace(c, info, names, |c.devices|, k);
    var d := SetAcls(c, info, names, |c.devices|).devices[k];
    assert d.(roles := c.devices[k].roles) == c.devices[k];
  }

  /** A name that is given and that no list has. */
  ghost predicate Missing(acls: seq<AclHeader>, name: string)
  {
    name != "" && forall k :: 0 <= k < |acls| ==> acls[k].name != name
  }

  lemma MissingIsUnknown(acls: seq<AclHeader>, name: string)
    ensures Missing(acls, name) <==> !Known(acls, name)
  {
    AclLookup(acls, name, null);
  }

  /* ---- Defaults ---- */

  /** A field keeps its own value, or takes that of the default section if it is not set. */
  ghost predicate FieldSet<T>(own: T, unset: T, dflt: Option<T>, v: T)
  {
    v == if own == unset && dflt.Some? then dflt.value else own
  }

  /** So do the two options, which are on if they are set nowhere. */
  ghost predicate OptionSet(own: int, dflt: Option<int>, v: int)
  {
    exists x :: FieldSet(own, -1, dflt, x) && v == if x == -1 then 1 else x
  }

  function Of<T>(f: Option<Dev>, g: Dev -> T): Option<T>
  {
    if f.None? then None else Some(g(f.value))
  }

  /** Field by field, `v` is the device `d` with the defaults of `f`. */
  ghost predicate Completed(d: Dev, f: Option<Dev>, v: Dev)
  {
    && v.target == d.target
    && FieldSet(d.shelf, 0xffff, Of(f, (x: Dev) => x.shelf), v.shelf)
    && FieldSet(d.slot, 0xff, Of(f, (x: Dev) => x.slot), v.slot)
    && FieldSet(d.iface, null, Of(f, (x: Dev) => x.iface), v.iface)
    && OptionSet(d.writecache, Of(f, (x: Dev) => x.writecache), v.writecache)
    && OptionSet(d.broadcast, Of(f, (x: Dev) => x.broadcast), v.broadcast)
    && FieldSet(d.roles.wacl, null, Of(f, (x: Dev) => x.roles.wacl), v.roles.wacl)
    && FieldSet(d.roles.racl, null, Of(f, (x: Dev) => x.roles.racl), v.roles.racl)
    && FieldSet(d.roles.cfgsetacl, null, Of(f, (x: Dev) => x.roles.cfgsetacl), v.roles.cfgsetacl)
    && FieldSet(d.roles.cfgracl, null, Of(f, (x: Dev) => x.roles.cfgracl), v.roles.cfgracl)
  }

  lemma FilledCompletes(d: Dev, f: Option<Dev>)
    ensures Completed(d, f, Filled(d, f).0)
  {
    var v := Filled(d, f).0;
    var w, b := Of(f, (x: Dev) => x.writecache), Of(f, (x: Dev) => x.broadcast);
    assert FieldSet(d.writecache, -1, w, if d.writecache == -1 && w.Some? then w.value else d.writecache);
    assert FieldSet(d.broadcast, -1, b, if d.broadcast == -1 && b.Some? then b.value else d.broadcast);
  }

  /** Each configured device is completed from the default section, with the slot counter at its turn. */
  lemma {:induction false} DefaultsOf(ds: seq<Dev>, f: Dev, k: nat)
    requires k < |ds|
    ensures Completed(ds[k], Some(f.(slot := (f.slot + Autos(ds, k)) % 256)), FilledAll(ds, Some(f)).0[k])
  {
    var f' := f.(slot := (f.slot + Autos(ds, k)) % 256);
    FilledAt(ds, Some(f), k);
    CounterAt(ds, f, k);
    FilledCompletes(ds[k], Some(f'));
  }

  lemma {:induction false} CounterAt(ds: seq<Dev>, f: Dev, k: nat)
    requires k <= |ds|
    ensures FilledAll(ds[..k], Some(f)).1 == Some(f.(slot := (f.slot + Autos(ds, k)) % 256))
  {
    CounterAfter(ds[..k], f);
    AutosPrefix(ds, k, k);
  }

  lemma {:induction false} NoDefaultsOf(ds: seq<Dev>, k: nat)
    requires k < |ds|
    ensures Completed(ds[k], None, FilledAll(ds, None).0[k])
  {
    FilledAt(ds, None, k);
    if k > 0 {
      NoDefaultSection(ds[..k], 0);
    }
    FilledCompletes(ds[k], None);
  }

  /* ---- Validation ---- */

  /** Two devices have the same address and are not one target on two interfaces. */
  predicate Collide(a: Dev, b: Dev)
  {
    a.shelf == b.shelf && a.slot == b.slot && !(a.target == b.target && a.iface != b.iface)
  }

  /** A configuration is accepted if and only if all log targets and MTUs are right, each device has a target
      that exists, an interface and an address, and no two devices collide. */
  lemma AcceptedIff(c: Conf, files: string -> bool)
    ensures Accepted(c, files)
       <==> && (forall i :: 0 <= i < |c.acls| ==> c.acls[i].logOK)
            && (forall i :: 0 <= i < |c.ifaces| ==> c.ifaces[i].logOK && c.ifaces[i].mtu != 0)
            && (forall i :: 0 <= i < |c.devices| ==>
                  && c.devices[i].target.Some? && files(c.devices[i].target.value)
                  && c.devices[i].iface != null && c.devices[i].slot != 0xff && c.devices[i].shelf != 0xffff)
            && (forall i, j :: 0 <= i < |c.devices| && 0 <= j < |c.devices| && i != j ==>
                  !Collide(c.devices[i], c.devices[j]))
  {
    var ds := c.devices;
    assert forall i, j :: 0 <= i < |ds| && 0 <= j < |ds| ==> Clash(ds[i], ds[j]) == Collide(ds[i], ds[j]);
    CompatibleRows(ds);
    ClearRowsAll(ds, |ds|);
    assert forall i :: 0 <= i < |ds| ==> TargetOK(ds[i], files) == (ds[i].target.Some? && files(ds[i].target.value));
    assert forall i :: 0 <= i < |ds| ==>
                         Complete(ds[i]) == (ds[i].iface != null && ds[i].slot != 0xff && ds[i].shelf != 0xffff);
    if Accepted(c, files) {
      forall i, j | 0 <= i < |ds| && 0 <= j < |ds| && i != j ensures !Collide(ds[i], ds[j]) {
        assert ClearRow(ds, i);
      }
    }
  }

  /* ---- ADD ---- */

  /** The new device as requested: NULL for an interface that is not named or not listed, no access lists. */
  ghost predicate Requested(c: Conf, info: Info, d: Dev)
  {
    && d.target == Some(info.target) && d.shelf == info.shelf && d.slot == info.slot
    && d.writecache == info.writecache && d.broadcast == info.broadcast
    && (if info.ifname == "" then d.iface == null else NamedInt(c.ifaces, info.ifname, d.iface))
    && d.roles == Roles(null, null, null, null)
  }

  lemma RequestedIsFresh(c: Conf, info: Info)
    ensures Requested(c, info, Fresh(c.ifaces, info))
  {
    IntLookup(c.ifaces, info.ifname, LookupInt(c.ifaces, info.ifname));
  }

  /** ADD completes the requested device from the default section. If it collides with a listed device, or
      does not start, ADD fails and the list stays; otherwise the device goes to the end of the list, and
      nothing else in the list changes. Only a device without interface that has its file crashes the
      daemon. The slot counter goes on in any case. */
  lemma AddedDevice(c: Conf, info: Info, start: Start) returns (d: Dev, v: Dev)
    ensures Requested(c, info, d) && Completed(d, c.dflt, v)
    ensures var (c', o) := Add(c, info, start);
            && c'.devices == (if o == Done then c.devices + [v] else c.devices)
            && (o == Failure <==>
                  || (exists i :: 0 <= i < |c.devices| && Collide(c.devices[i], v))
                  || start == NoFile || (start == NoThread && v.iface != null))
            && (o == Crashed ==> v.iface == null)
            && c'.ifaces == c.ifaces && c'.acls == c.acls && c'.refs == c.refs
            && c'.dflt == match c.dflt
                          case None => None
                          case Some(f) => Some(if info.slot == 0xff then f.(slot := (f.slot + 1) % 256) else f)
  {
    d := Fresh(c.ifaces, info);
    v := Filled(d, c.dflt).0;
    RequestedIsFresh(c, info);
    FilledCompletes(d, c.dflt);
    assert forall i :: 0 <= i < |c.devices| ==> Clash(c.devices[i], v) == Collide(c.devices[i], v);
  }

  /* ---- Deleting interfaces ---- */

  /** The request takes this interface away. */
  predicate Taken(c: Conf, name: string, stops: set<Interface>, i: Interface)
  {
    i.name != name && Get(c.uses, i) < 1 && i in stops
  }

  lemma {:induction false} KeptPlaces(uses: map<Interface?, int>, ifaces: seq<Interface>, name: string,
                                      stops: set<Interface>)
      returns (at: seq<nat>)
    ensures var (kept, o) := Kept(uses, ifaces, name, stops);
            && |at| == |kept|
            && (forall k :: 0 <= k < |at| ==> at[k] < |ifaces| && kept[k] == ifaces[at[k]])
            && (forall j, k :: 0 <= j < k < |at| ==> at[j] < at[k])
            && (forall k :: 0 <= k < |ifaces| ==>
                  (k in at <==> !(ifaces[k].name != name && Get(uses, ifaces[k]) < 1 && ifaces[k] in stops)))
  {
    if ifaces == [] {
      at := [];
    } else {
      var n := |ifaces| - 1;
      var before := KeptPlaces(uses, ifaces[..n], name, stops);
      if |Kept(uses, ifaces, name, stops).0| > |before| {
        at := before + [n];
      } else {
        at := before;
      }
    }
  }

  /** Deleting interfaces keeps the others in their order. */
  lemma InterfacesLeft(c: Conf, name: string, stops: set<Interface>) returns (at: seq<nat>)
    ensures var left := DelInterface(c, name, stops).0.ifaces;
            && |at| == |left|
            && (forall k :: 0 <= k < |at| ==> at[k] < |c.ifaces| && left[k] == c.ifaces[at[k]])
            && (forall j, k :: 0 <= j < k < |at| ==> at[j] < at[k])
            && (forall k :: 0 <= k < |c.ifaces| ==> (k in at <==> !Taken(c, name, stops, c.ifaces[k])))
  {
    at := KeptPlaces(c.uses, c.ifaces, name, stops);
  }

  /** An interface that could go, but whose thread does not stop. */
  predicate Stuck(c: Conf, name: string, stops: set<Interface>, i: Interface)
  {
    i.name != name && Get(c.uses, i) < 1 && i !in stops
  }

  ghost predicate LastOneWent(c: Conf, name: string, stops: set<Interface>, ifaces: seq<Interface>)
  {
    exists k :: 0 <= k < |ifaces| && Taken(c, name, stops, ifaces[k])
                && forall j :: k < j < |ifaces| ==> !Stuck(c, name, stops, ifaces[j])
  }

  lemma {:induction false} LastTried(c: Conf, name: string, stops: set<Interface>, ifaces: seq<Interface>)
    ensures Kept(c.uses, ifaces, name, stops).1 == if LastOneWent(c, name, stops, ifaces) then Done else Failure
  {
    if ifaces == [] {
    } else {
      var n := |ifaces| - 1;
      LastTried(c, name, stops, ifaces[..n]);
      if LastOneWent(c, name, stops, ifaces[..n]) && !Stuck(c, name, stops, ifaces[n]) {
        var k :| 0 <= k < n && Taken(c, name, stops, ifaces[..n][k])
                 && forall j :: k < j < n ==> !Stuck(c, name, stops, ifaces[..n][j]);
        assert Taken(c, name, stops, ifaces[k]);
        assert forall j :: k < j < n ==> ifaces[..n][j] == ifaces[j];
      }
      if LastOneWent(c, name, stops, ifaces) {
        var k :| 0 <= k < |ifaces| && Taken(c, name, stops, ifaces[k])
                 && forall j :: k < j < |ifaces| ==> !Stuck(c, name, stops, ifaces[j]);
        if k < n {
          assert ifaces[..n][k] == ifaces[k];
        }
      }
    }
  }

  /** The request succeeds if and only if the last interface that could go went. */
  lemma DelInterfaceResult(c: Conf, name: string, stops: set<Interface>)
    ensures DelInterface(c, name, stops).1 == if LastOneWent(c, name, stops, c.ifaces) then Done else Failure
  {
    LastTried(c, name, stops, c.ifaces);
  }
}
