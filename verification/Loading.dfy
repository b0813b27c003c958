/** Loading the device and default sections (parsedevacl, parseDEV, findDEV and findDFLT in parseconf.c):
    what they make of the statements, and the access-list counts that they leave. Values; the code is in
    module Configuration. */
module Loading {
  import opened Common
  import opened Aoe
  import opened Lba
  import opened DeviceConfig
  import opened Registry
  import opened RegistryMeaning
  import opened RegistryTheorems

  /** A statement of a section. `Acl` is a statement of its acl subsection. Numbers are as atoi gives them,
      cut to the width of the field; log targets are left out. */
  datatype Stmt =
    | Acl(keyword: string, name: string)
    | Target(target: string)
    | Shelf(shelf: uint16)
    | Slot(slot: byte)
    | Iface(ifname: string)
    | Writecache(on: bool)
    | Broadcast(on: bool)
    | Unknown

  datatype Role = Write | Read | CfgSet | CfgRead

  /** The keywords of parsedevacl. */
  function RoleOf(keyword: string): Option<Role>
  {
    if keyword == "read" then Some(Read)
    else if keyword == "write" then Some(Write)
    else if keyword == "cfgread" || keyword == "discover" then Some(CfgRead)
    else if keyword == "cfgset" then Some(CfgSet)
    else None
  }

  function WithRole(r: Roles, role: Role, a: AclHeader?): Roles
  {
    match role
    case Write => r.(wacl := a)
    case Read => r.(racl := a)
    case CfgSet => r.(cfgsetacl := a)
    case CfgRead => r.(cfgracl := a)
  }

  /** The effect of the other statements; `i` is the interface that a name stands for. */
  function WithField(d: Dev, s: Stmt, i: Interface?): Dev
  {
    match s
    case Target(t) => d.(target := Some(t))
    case Shelf(n) => d.(shelf := n)
    case Slot(n) => d.(slot := n)
    case Iface(_) => d.(iface := i)
    case Writecache(on) => d.(writecache := if on then 1 else 0)
    case Broadcast(on) => d.(broadcast := if on then 1 else 0)
    case _ => d
  }

  /** aclrefup, which does nothing for a list that was not found. */
  function Up(refs: map<AclHeader?, int>, a: AclHeader?): map<AclHeader?, int>
  {
    if a == null then refs else Bump(refs, a, 1)
  }

  const UNSET: Dev := Dev(None, ANY_SHELF, ANY_SLOT, null, -1, -1, Roles(null, null, null, null))

  /** parseDEV inside a section. After a statement that is not known it gives up. */
  datatype Parse = Parse(dev: Dev, refs: map<AclHeader?, int>, ok: bool)

  function ParseStmt(ifaces: seq<Interface>, acls: seq<AclHeader>, p: Parse, s: Stmt): Parse
  {
    if !p.ok then p
    else
      match s
      case Acl(keyword, name) =>
        (match RoleOf(keyword)
         case None => p.(ok := false)
         case Some(role) =>
           var a := LookupAcl(acls, name);
           Parse(p.dev.(roles := WithRole(p.dev.roles, role, a)), Up(p.refs, a), true))
      case Unknown => p.(ok := false)
      case _ => p.(dev := WithField(p.dev, s, if s.Iface? then LookupInt(ifaces, s.ifname) else null))
  }

  function ParseSection(ifaces: seq<Interface>, acls: seq<AclHeader>, refs: map<AclHeader?, int>, stmts: seq<Stmt>)
    : Parse
  {
    if stmts == [] then Parse(UNSET, refs, true)
    else
      var n := |stmts| - 1;
      ParseStmt(ifaces, acls, ParseSection(ifaces, acls, refs, stmts[..n]), stmts[n])
  }

  /** findDEV and findDFLT: a section that is given up returns NULL for the list, so the devices before it
      are dropped and the list starts again. */
  function FindAll(ifaces: seq<Interface>, acls: seq<AclHeader>, refs: map<AclHeader?, int>, sections: seq<seq<Stmt>>)
    : (seq<Dev>, map<AclHeader?, int>)
  {
    if sections == [] then ([], refs)
    else
      var n := |sections| - 1;
      var (ds, refs1) := FindAll(ifaces, acls, refs, sections[..n]);
      var p := ParseSection(ifaces, acls, refs1, sections[n]);
      (if p.ok then ds + [p.dev] else [], p.refs)
  }

  /** One more section. */
  function Found(c: Conf, stmts: seq<Stmt>): Conf
  {
    var p := ParseSection(c.ifaces, c.acls, c.refs, stmts);
    c.(devices := if p.ok then c.devices + [p.dev] else [], refs := p.refs)
  }

  /** All sections, from an empty list. */
  function FoundAll(c: Conf, sections: seq<seq<Stmt>>): Conf
  {
    var (ds, refs) := FindAll(c.ifaces, c.acls, c.refs, sections);
    c.(devices := ds, refs := refs)
  }

  lemma FoundNext(c: Conf, sections: seq<seq<Stmt>>, i: nat)
    requires i < |sections|
    ensures FoundAll(c, sections[..i + 1]) == Found(FoundAll(c, sections[..i]), sections[i])
  {
    assert sections[..i + 1][..i] == sections[..i];
  }

  /** The default section is the first of its list; its open options are switched on. */
  function DefaultOf(ds: seq<Dev>): Option<Dev>
  {
    if ds == [] then None
    else
      var f := ds[0];
      Some(f.(writecache := if f.writecache == -1 then 1 else f.writecache,
              broadcast := if f.broadcast == -1 then 1 else f.broadcast))
  }

  /** A configuration file, as far as the devices go. */
  datatype File = File(dflts: seq<seq<Stmt>>, devs: seq<seq<Stmt>>)

  function Defaults(c: Conf, file: File): (Option<Dev>, map<AclHeader?, int>)
  {
    var (ds, refs) := FindAll(c.ifaces, c.acls, c.refs, file.dflts);
    (DefaultOf(ds), refs)
  }

  /** The devices as parsed, before defaults. */
  function Parsed(c: Conf, file: File): (seq<Dev>, map<AclHeader?, int>)
  {
    FindAll(c.ifaces, c.acls, Defaults(c, file).1, file.devs)
  }

  /** qaoed_loadconfig from findDFLT to qaoed_defaultconfig; `c` holds the lists and the counts that they
      start with. */
  function Load(c: Conf, file: File): Conf
  {
    var (ds, refs) := Parsed(c, file);
    var (filled, dflt) := FilledAll(ds, Defaults(c, file).0);
    c.(devices := filled, dflt := dflt, refs := refs)
  }

  lemma {:induction false} GivenUp(ifaces: seq<Interface>, acls: seq<AclHeader>, refs: map<AclHeader?, int>,
                                   stmts: seq<Stmt>, k: nat)
    requires k <= |stmts| && !ParseSection(ifaces, acls, refs, stmts[..k]).ok
    ensures ParseSection(ifaces, acls, refs, stmts) == ParseSection(ifaces, acls, refs, stmts[..k])
  {
    var n := |stmts| - 1;
    if k == |stmts| {
      assert stmts[..k] == stmts;
    } else {
      assert stmts[..n][..k] == stmts[..k];
      GivenUp(ifaces, acls, refs, stmts[..n], k);
    }
  }

  /* ---- What a section means ---- */

  datatype Kind =
    ForTarget | ForShelf | ForSlot | ForInterface | ForWritecache | ForBroadcast | ForRole(words: set<string>)

  predicate Says(s: Stmt, kind: Kind)
  {
    match kind
    case ForTarget => s.Target?
    case ForShelf => s.Shelf?
    case ForSlot => s.Slot?
    case ForInterface => s.Iface?
    case ForWritecache => s.Writecache?
    case ForBroadcast => s.Broadcast?
    case ForRole(words) => s.Acl? && s.keyword in words
  }

  /** The last statement of a kind. */
  function LastOf(stmts: seq<Stmt>, kind: Kind): (r: Option<Stmt>)
    ensures r.Some? ==> Says(r.value, kind)
  {
    if stmts == [] then None
    else
      var n := |stmts| - 1;
      if Says(stmts[n], kind) then Some(stmts[n]) else LastOf(stmts[..n], kind)
  }

  lemma {:induction false} LastOfLast(stmts: seq<Stmt>, kind: Kind) returns (k: int)
    ensures -1 <= k < |stmts| && forall i :: k < i < |stmts| ==> !Says(stmts[i], kind)
    ensures if k < 0 then LastOf(stmts, kind) == None
            else Says(stmts[k], kind) && LastOf(stmts, kind) == Some(stmts[k])
  {
    if stmts == [] {
      k := -1;
    } else if Says(stmts[|stmts| - 1], kind) {
      k := |stmts| - 1;
    } else {
      k := LastOfLast(stmts[..|stmts| - 1], kind);
    }
  }

  /** `r` is the access list that the last statement with one of these keywords names, or none. */
  ghost predicate RoleFrom(acls: seq<AclHeader>, stmts: seq<Stmt>, words: set<string>, r: AclHeader?)
  {
    r == match LastOf(stmts, ForRole(words)) case None => null case Some(s) => LookupAcl(acls, s.name)
  }

  ghost predicate RolesFrom(acls: seq<AclHeader>, stmts: seq<Stmt>, r: Roles)
  {
    && RoleFrom(acls, stmts, {"write"}, r.wacl)
    && RoleFrom(acls, stmts, {"read"}, r.racl)
    && RoleFrom(acls, stmts, {"cfgset"}, r.cfgsetacl)
    && RoleFrom(acls, stmts, {"cfgread", "discover"}, r.cfgracl)
  }

  ghost predicate FieldsFrom(ifaces: seq<Interface>, stmts: seq<Stmt>, d: Dev)
  {
    && d.target == (match LastOf(stmts, ForTarget) case None => None case Some(s) => Some(s.target))
    && d.shelf == (match LastOf(stmts, ForShelf) case None => 0xffff case Some(s) => s.shelf)
    && d.slot == (match LastOf(stmts, ForSlot) case None => 0xff case Some(s) => s.slot)
    && d.iface == (match LastOf(stmts, ForInterface) case None => null case Some(s) => LookupInt(ifaces, s.ifname))
    && d.writecache == (match LastOf(stmts, ForWritecache) case None => -1 case Some(s) => if s.on then 1 else 0)
    && d.broadcast == (match LastOf(stmts, ForBroadcast) case None => -1 case Some(s) => if s.on then 1 else 0)
  }

  lemma RolesNext(ifaces: seq<Interface>, acls: seq<AclHeader>, stmts: seq<Stmt>, p: Parse)
    requires stmts != [] && p.ok && RolesFrom(acls, stmts[..|stmts| - 1], p.dev.roles)
    ensures var p' := ParseStmt(ifaces, acls, p, stmts[|stmts| - 1]);
            p'.ok ==> RolesFrom(acls, stmts, p'.dev.roles)
  {
    var s := stmts[|stmts| - 1];
    if s.Acl? {
      assert Says(s, ForRole({"write"})) <==> s.keyword == "write";
      assert Says(s, ForRole({"read"})) <==> s.keyword == "read";
      assert Says(s, ForRole({"cfgset"})) <==> s.keyword == "cfgset";
      assert Says(s, ForRole({"cfgread", "discover"})) <==> s.keyword == "cfgread" || s.keyword == "discover";
    }
  }

  lemma FieldsNext(ifaces: seq<Interface>, acls: seq<AclHeader>, stmts: seq<Stmt>, p: Parse)
    requires stmts != [] && p.ok && FieldsFrom(ifaces, stmts[..|stmts| - 1], p.dev)
    ensures var p' := ParseStmt(ifaces, acls, p, stmts[|stmts| - 1]);
            p'.ok ==> FieldsFrom(ifaces, stmts, p'.dev)
  {
    var s, before := stmts[|stmts| - 1], stmts[..|stmts| - 1];
    LastNext(stmts, before, s, ForTarget);
    LastNext(stmts, before, s, ForShelf);
    LastNext(stmts, before, s, ForSlot);
    LastNext(stmts, before, s, ForInterface);
    LastNext(stmts, before, s, ForWritecache);
    LastNext(stmts, before, s, ForBroadcast);
    FieldNext(ifaces, stmts, before, s, p.dev, if s.Iface? then LookupInt(ifaces, s.ifname) else null);
  }

  ghost predicate Next(stmts: seq<Stmt>, before: seq<Stmt>, s: Stmt, kind: Kind)
  {
    LastOf(stmts, kind) == if Says(s, kind) then Some(s) else LastOf(before, kind)
  }

  lemma LastNext(stmts: seq<Stmt>, before: seq<Stmt>, s: Stmt, kind: Kind)
    requires stmts != [] && before == stmts[..|stmts| - 1] && s == stmts[|stmts| - 1]
    ensures Next(stmts, before, s, kind)
  {
  }

  lemma FieldNext(ifaces: seq<Interface>, stmts: seq<Stmt>, before: seq<Stmt>, s: Stmt, d: Dev, i: Interface?)
    requires FieldsFrom(ifaces, before, d) && (s.Iface? ==> i == LookupInt(ifaces, s.ifname))
    requires Next(stmts, before, s, ForTarget) && Next(stmts, before, s, ForShelf) && Next(stmts, before, s, ForSlot)
    requires Next(stmts, before, s, ForInterface)
    requires Next(stmts, before, s, ForWritecache) && Next(stmts, before, s, ForBroadcast)
    ensures FieldsFrom(ifaces, stmts, WithField(d, s, i))
    ensures s.Acl? ==> FieldsFrom(ifaces, stmts, d)
  {
    match s
    case Acl(_, _) =>
    case Target(_) =>
    case Shelf(_) =>
    case Slot(_) =>
    case Iface(_) =>
    case Writecache(_) =>
    case Broadcast(_) =>
    case Unknown =>
  }

  predicate KnownStmt(s: Stmt)
  {
    !s.Unknown? && (s.Acl? ==> s.keyword in {"read", "write", "cfgset", "cfgread", "discover"})
  }

  /** A section is read if and only if each statement is known, and then each field of the device has the value
      of the last statement for it, or is not set. */
  lemma {:induction false} SectionMeans(ifaces: seq<Interface>, acls: seq<AclHeader>, refs: map<AclHeader?, int>,
                                        stmts: seq<Stmt>)
    ensures var p := ParseSection(ifaces, acls, refs, stmts);
            && (p.ok <==> forall i :: 0 <= i < |stmts| ==> KnownStmt(stmts[i]))
            && (p.ok ==> FieldsFrom(ifaces, stmts, p.dev) && RolesFrom(acls, stmts, p.dev.roles))
  {
    if stmts == [] {
    } else {
      var n := |stmts| - 1;
      var p := ParseSection(ifaces, acls, refs, stmts[..n]);
      SectionMeans(ifaces, acls, refs, stmts[..n]);
      StmtKnown(ifaces, acls, p, stmts[n]);
      if p.ok {
        RolesNext(ifaces, acls, stmts, p);
        FieldsNext(ifaces, acls, stmts, p);
      }
    }
  }

  lemma StmtKnown(ifaces: seq<Interface>, acls: seq<AclHeader>, p: Parse, s: Stmt)
    ensures ParseStmt(ifaces, acls, p, s).ok <==> p.ok && KnownStmt(s)
  {
  }

  /** The default section is the first one left over; an option that it does not set is switched on. */
  lemma DefaultMeans(ds: seq<Dev>)
    ensures DefaultOf(ds).Some? <==> ds != []
    ensures ds != [] ==>
              var f := DefaultOf(ds).value;
              && ds[0] == f.(writecache := ds[0].writecache, broadcast := ds[0].broadcast)
              && f.writecache == (if ds[0].writecache == -1 then 1 else ds[0].writecache)
              && f.broadcast == (if ds[0].broadcast == -1 then 1 else ds[0].broadcast)
  {
  }

  /* ---- The counts ---- */

  /** The references to a list that a section takes: one for each of its acl statements that names it, up
      to the statement at which it is given up. */
  function Taken(ifaces: seq<Interface>, acls: seq<AclHeader>, stmts: seq<Stmt>, a: AclHeader): nat
  {
    if stmts == [] then 0
    else
      var n := |stmts| - 1;
      var s := stmts[n];
      Taken(ifaces, acls, stmts[..n], a)
      + One(ParseSection(ifaces, acls, map[], stmts[..n]).ok && s.Acl? && RoleOf(s.keyword).Some?
            && LookupAcl(acls, s.name) == a)
  }

  function TakenAll(ifaces: seq<Interface>, acls: seq<AclHeader>, sections: seq<seq<Stmt>>, a: AclHeader): nat
  {
    if sections == [] then 0
    else
      var n := |sections| - 1;
      TakenAll(ifaces, acls, sections[..n], a) + Taken(ifaces, acls, sections[n], a)
  }

  lemma {:induction false} ParsedAlike(ifaces: seq<Interface>, acls: seq<AclHeader>, refs: map<AclHeader?, int>,
                                       stmts: seq<Stmt>)
    ensures var p, q := ParseSection(ifaces, acls, refs, stmts), ParseSection(ifaces, acls, map[], stmts);
            p.ok == q.ok && p.dev == q.dev
  {
    if stmts == [] {
    } else {
      ParsedAlike(ifaces, acls, refs, stmts[..|stmts| - 1]);
    }
  }

  lemma {:induction false} SectionRefs(ifaces: seq<Interface>, acls: seq<AclHeader>, refs: map<AclHeader?, int>,
                                       stmts: seq<Stmt>, a: AclHeader)
    ensures Get(ParseSection(ifaces, acls, refs, stmts).refs, a) == Get(refs, a) + Taken(ifaces, acls, stmts, a)
  {
    if stmts == [] {
    } else {
      var n := |stmts| - 1;
      SectionRefs(ifaces, acls, refs, stmts[..n], a);
      ParsedAlike(ifaces, acls, refs, stmts[..n]);
    }
  }

  lemma {:induction false} AllRefs(ifaces: seq<Interface>, acls: seq<AclHeader>, refs: map<AclHeader?, int>,
                                   sections: seq<seq<Stmt>>, a: AclHeader)
    ensures Get(FindAll(ifaces, acls, refs, sections).1, a) == Get(refs, a) + TakenAll(ifaces, acls, sections, a)
  {
    if sections == [] {
    } else {
      var n := |sections| - 1;
      AllRefs(ifaces, acls, refs, sections[..n], a);
      SectionRefs(ifaces, acls, FindAll(ifaces, acls, refs, sections[..n]).1, sections[n], a);
    }
  }

  /** A device inherits the role fields that it leaves open, and nothing counts them. */
  function Inherited(r: Roles, f: Roles, a: AclHeader): nat
  {
    One(r.wacl == null && f.wacl == a) + One(r.racl == null && f.racl == a)
    + One(r.cfgsetacl == null && f.cfgsetacl == a) + One(r.cfgracl == null && f.cfgracl == a)
  }

  function InheritedAll(ds: seq<Dev>, dflt: Option<Dev>, a: AclHeader): nat
  {
    if ds == [] || dflt.None? then 0
    else
      var n := |ds| - 1;
      InheritedAll(ds[..n], dflt, a) + Inherited(ds[n].roles, dflt.value.roles, a)
  }

  lemma FilledRoles(d: Dev, dflt: Option<Dev>, a: AclHeader)
    ensures RoleCount(Filled(d, dflt).0.roles, a)
         == RoleCount(d.roles, a) + if dflt.None? then 0 else Inherited(d.roles, dflt.value.roles, a)
    ensures Filled(d, dflt).1.Some? == dflt.Some?
    ensures dflt.Some? ==> Filled(d, dflt).1.value.roles == dflt.value.roles
  {
  }

  lemma {:induction false} FilledFields(ds: seq<Dev>, dflt: Option<Dev>, a: AclHeader)
    ensures RoleFields(FilledAll(ds, dflt).0, a) == RoleFields(ds, a) + InheritedAll(ds, dflt, a)
    ensures dflt.Some? ==> FilledAll(ds, dflt).1.value.roles == dflt.value.roles
  {
    if ds == [] {
    } else {
      var n := |ds| - 1;
      FilledFields(ds[..n], dflt, a);
      FilledRoles(ds[n], FilledAll(ds[..n], dflt).1, a);
      var filled := FilledAll(ds, dflt).0;
      assert filled[..n] == FilledAll(ds[..n], dflt).0;
    }
  }

  /** What the counts have after loading: every reference that parsing took, also those of default
      sections, of fields that were set again and of devices that were dropped, but none that a device
      inherits. */
  lemma LoadGap(c: Conf, file: File, a: AclHeader)
    ensures Gap(Load(c, file), a)
         == Get(c.refs, a) + TakenAll(c.ifaces, c.acls, file.dflts, a) + TakenAll(c.ifaces, c.acls, file.devs, a)
            - RoleFields(Parsed(c, file).0, a) - InheritedAll(Parsed(c, file).0, Defaults(c, file).0, a)
  {
    AllRefs(c.ifaces, c.acls, c.refs, file.dflts, a);
    AllRefs(c.ifaces, c.acls, Defaults(c, file).1, file.devs, a);
    FilledFields(Parsed(c, file).0, Defaults(c, file).0, a);
  }

  /* ---- Files without errors ---- */

  /** Every statement is known, and no role is set twice. */
  ghost predicate Clean(stmts: seq<Stmt>)
  {
    && (forall i :: 0 <= i < |stmts| ==> stmts[i] != Unknown && (stmts[i].Acl? ==> RoleOf(stmts[i].keyword).Some?))
    && (forall i, j :: 0 <= i < j < |stmts| && stmts[i].Acl? && stmts[j].Acl? ==>
          RoleOf(stmts[i].keyword) != RoleOf(stmts[j].keyword))
  }

  ghost predicate CleanFile(file: File)
  {
    && |file.dflts| <= 1
    && (forall i :: 0 <= i < |file.dflts| ==> Clean(file.dflts[i]))
    && (forall i :: 0 <= i < |file.devs| ==> Clean(file.devs[i]))
  }

  function RoleField(r: Roles, role: Role): AclHeader?
  {
    match role
    case Write => r.wacl
    case Read => r.racl
    case CfgSet => r.cfgsetacl
    case CfgRead => r.cfgracl
  }

  predicate Sets(s: Stmt, role: Role)
  {
    s.Acl? && RoleOf(s.keyword) == Some(role)
  }

  /** A role that no statement sets stays open. */
  lemma {:induction false} OpenRole(ifaces: seq<Interface>, acls: seq<AclHeader>, refs: map<AclHeader?, int>,
                                    stmts: seq<Stmt>, role: Role)
    requires forall i :: 0 <= i < |stmts| ==> !Sets(stmts[i], role)
    ensures RoleField(ParseSection(ifaces, acls, refs, stmts).dev.roles, role) == null
  {
    if stmts == [] {
    } else {
      OpenRole(ifaces, acls, refs, stmts[..|stmts| - 1], role);
    }
  }

  lemma SetOpenRole(r: Roles, role: Role, b: AclHeader?, a: AclHeader)
    requires RoleField(r, role) == null
    ensures RoleCount(WithRole(r, role, b), a) == RoleCount(r, a) + One(b == a)
  {
  }

  lemma {:induction false} CleanSection(ifaces: seq<Interface>, acls: seq<AclHeader>, refs: map<AclHeader?, int>,
                                        stmts: seq<Stmt>, a: AclHeader)
    requires Clean(stmts)
    ensures ParseSection(ifaces, acls, refs, stmts).ok
    ensures RoleCount(ParseSection(ifaces, acls, refs, stmts).dev.roles, a) == Taken(ifaces, acls, stmts, a)
  {
    if stmts == [] {
    } else {
      var n := |stmts| - 1;
      var s, p := stmts[n], ParseSection(ifaces, acls, refs, stmts[..n]);
      CleanSection(ifaces, acls, refs, stmts[..n], a);
      ParsedAlike(ifaces, acls, refs, stmts[..n]);
      if s.Acl? {
        var role := RoleOf(s.keyword).value;
        forall i | 0 <= i < n ensures !Sets(stmts[..n][i], role) {
        }
        OpenRole(ifaces, acls, refs, stmts[..n], role);
        SetOpenRole(p.dev.roles, role, LookupAcl(acls, s.name), a);
      }
    }
  }

  lemma {:induction false} CleanAll(ifaces: seq<Interface>, acls: seq<AclHeader>, refs: map<AclHeader?, int>,
                                    sections: seq<seq<Stmt>>, a: AclHeader)
    requires forall i :: 0 <= i < |sections| ==> Clean(sections[i])
    ensures |FindAll(ifaces, acls, refs, sections).0| == |sections|
    ensures RoleFields(FindAll(ifaces, acls, refs, sections).0, a) == TakenAll(ifaces, acls, sections, a)
  {
    if sections == [] {
    } else {
      var n := |sections| - 1;
      var (ds, refs1) := FindAll(ifaces, acls, refs, sections[..n]);
      CleanAll(ifaces, acls, refs, sections[..n], a);
      CleanSection(ifaces, acls, refs1, sections[n], a);
      var all := FindAll(ifaces, acls, refs, sections).0;
      assert all[..n] == ds;
      ParsedAlike(ifaces, acls, refs1, sections[n]);
    }
  }

  /** References that the default section takes for its own fields. */
  function DefaultCount(c: Conf, file: File, a: AclHeader): nat
  {
    match Defaults(c, file).0
    case None => 0
    case Some(f) => RoleCount(f.roles, a)
  }

  lemma CleanGap(c: Conf, file: File, a: AclHeader)
    requires CleanFile(file)
    ensures Gap(Load(c, file), a)
         == Get(c.refs, a) + DefaultCount(c, file, a) - InheritedAll(Parsed(c, file).0, Defaults(c, file).0, a)
  {
    LoadGap(c, file, a);
    CleanAll(c.ifaces, c.acls, c.refs, file.dflts, a);
    CleanAll(c.ifaces, c.acls, Defaults(c, file).1, file.devs, a);
    var ds := FindAll(c.ifaces, c.acls, c.refs, file.dflts).0;
    if ds != [] {
      assert ds[..0] == [];
      assert RoleFields(ds, a) == RoleCount(ds[0].roles, a);
    }
  }

  /** After loading a file without errors, with counts that start at zero, the count of a list is the
      number of device fields that point at it if and only if the devices inherit it as often as the
      default section names it. */
  lemma LoadConservesIff(c: Conf, file: File, a: AclHeader)
    requires CleanFile(file) && Get(c.refs, a) == 0
    ensures var loaded := Load(c, file);
            Get(loaded.refs, a) == RoleFields(loaded.devices, a)
            <==> InheritedAll(Parsed(c, file).0, Defaults(c, file).0, a) == DefaultCount(c, file, a)
  {
    CleanGap(c, file, a);
  }

  /** From the file on, over every run of requests. */
  lemma LoadedRunGap(v: Version, c: Conf, file: File, steps: seq<Step>, a: AclHeader)
    requires CleanFile(file)
    ensures var loaded := StartAll(Load(c, file), |Load(c, file).devices|);
            Gap(Run(v, loaded, steps).0, a)
            == Get(c.refs, a) + DefaultCount(c, file, a)
               - InheritedAll(Parsed(c, file).0, Defaults(c, file).0, a) + RunDrift(v, loaded, steps, a)
  {
    var loaded := StartAll(Load(c, file), |Load(c, file).devices|);
    CleanGap(c, file, a);
    RunGap(v, loaded, steps, a);
  }

  /* ---- Sections with errors ---- */

  /** What is left of the device list: the sections after the last one that was given up. So one wrong
      section in the middle drops the devices before it, and the rest is loaded without them. */
  lemma {:induction false} DevicesAfterError(ifaces: seq<Interface>, acls: seq<AclHeader>,
                                             refs: map<AclHeader?, int>, sections: seq<seq<Stmt>>, k: nat)
    requires k <= |sections|
    requires forall i :: k <= i < |sections| ==> ParseSection(ifaces, acls, map[], sections[i]).ok
    requires k > 0 ==> !ParseSection(ifaces, acls, map[], sections[k - 1]).ok
    ensures var ds := FindAll(ifaces, acls, refs, sections).0;
            && |ds| == |sections| - k
            && forall i :: 0 <= i < |ds| ==> ds[i] == ParseSection(ifaces, acls, map[], sections[k + i]).dev
  {
    if sections == [] {
    } else {
      var n := |sections| - 1;
      var (before, refs1) := FindAll(ifaces, acls, refs, sections[..n]);
      ParsedAlike(ifaces, acls, refs1, sections[n]);
      if k <= n {
        DevicesAfterError(ifaces, acls, refs, sections[..n], k);
        var ds := before + [ParseSection(ifaces, acls, map[], sections[n]).dev];
        assert FindAll(ifaces, acls, refs, sections).0 == ds;
        forall i | 0 <= i < |ds| ensures ds[i] == ParseSection(ifaces, acls, map[], sections[k + i]).dev {
          if i < |before| {
            assert sections[..n][k + i] == sections[k + i];
          }
        }
      }
    }
  }

  /* ---- From the file to the devices ---- */

  ghost predicate KnownSections(c: Conf, sections: seq<seq<Stmt>>)
  {
    forall i :: 0 <= i < |sections| ==> ParseSection(c.ifaces, c.acls, map[], sections[i]).ok
  }

  lemma {:induction false} SectionDevice(c: Conf, file: File, k: nat)
    requires k < |file.devs| && KnownSections(c, file.devs)
    ensures var ds := Parsed(c, file).0;
            && |ds| == |file.devs|
            && FieldsFrom(c.ifaces, file.devs[k], ds[k]) && RolesFrom(c.acls, file.devs[k], ds[k].roles)
  {
    DevicesAfterError(c.ifaces, c.acls, Defaults(c, file).1, file.devs, 0);
    SectionMeans(c.ifaces, c.acls, map[], file.devs[k]);
    assert Parsed(c, file).0[k] == ParseSection(c.ifaces, c.acls, map[], file.devs[0 + k]).dev;
  }

  /** The default section, with the slot counter when it is the turn of the k-th device. */
  function DefaultsAt(c: Conf, file: File, k: nat): Option<Dev>
    requires k <= |Parsed(c, file).0|
  {
    match Defaults(c, file).0
    case None => None
    case Some(f) => Some(f.(slot := (f.slot + Autos(Parsed(c, file).0, k)) % 256))
  }

  lemma {:induction false} DeviceCompleted(c: Conf, file: File, k: nat)
    requires k < |Parsed(c, file).0|
    ensures |Load(c, file).devices| == |Parsed(c, file).0|
    ensures Completed(Parsed(c, file).0[k], DefaultsAt(c, file, k), Load(c, file).devices[k])
  {
    var ds := Parsed(c, file).0;
    match Defaults(c, file).0
    case None => NoDefaultsOf(ds, k);
    case Some(f) => DefaultsOf(ds, f, k);
  }

  /** In a file whose device sections are all known, the k-th section gives the k-th device: the fields that it
      describes, completed from the default section with the slot counter at its turn. */
  lemma {:induction false} LoadedDevice(c: Conf, file: File, k: nat) returns (d: Dev)
    requires k < |file.devs| && KnownSections(c, file.devs)
    ensures |Parsed(c, file).0| == |Load(c, file).devices| == |file.devs|
    ensures FieldsFrom(c.ifaces, file.devs[k], d) && RolesFrom(c.acls, file.devs[k], d.roles)
    ensures Completed(d, DefaultsAt(c, file, k), Load(c, file).devices[k])
  {
    SectionDevice(c, file, k);
    DeviceCompleted(c, file, k);
    d := Parsed(c, file).0[k];
  }
}
