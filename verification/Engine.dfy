/** The request engine of a device (devices.c): what one work entry does to the file, the config string
    and the wire, and what follows for every run of a worker. Jobs carry the access lists of the moment
    and the outcome of the system call. */
module Engine {
  import opened Common
  import opened Aoe
  import opened AccessList
  import opened Lba
  import B = BlockStore
  import C = CfgString

  const CMD_ATA: nat := 0
  const CMD_CFG: nat := 1

  const VERSION_ONE: bv8 := 0x10
  const FLAG_RSP: bv8 := 0x08
  const FLAG_ERR: bv8 := 0x04

  const READY_STAT: bv8 := 0x40
  const ERR_STAT: bv8 := 0x01
  const ABRT_ERR: bv8 := 0x04

  /** The header fields that a reply takes over. */
  datatype Header = Header(src: Mac, verFlags: bv8, error: bv8, cmd: byte, tag: bv32)

  /** A received packet; `ata` and `cfg` are the two readings of what follows its header. */
  datatype Packet = Packet(hdr: Header, len: nat, ata: B.AtaRequest, cfg: C.CfgRequest)
  {
    predicate IsAta() { hdr.cmd == CMD_ATA && len >= ATAHDR_LEN }

    predicate IsCfg() { hdr.cmd == CMD_CFG && len >= CFGHDR_LEN }

    predicate WellFormed()
    {
      && (IsAta() ==> ata.WellFormed() && ata.src == hdr.src)
      && (IsCfg() ==> cfg.WellFormed() && cfg.src == hdr.src)
    }
  }

  datatype Lists = Lists(racl: Option<Acl>, wacl: Option<Acl>, cfgracl: Option<Acl>, cfgsetacl: Option<Acl>)

  datatype Job = Job(pkt: Packet, lists: Lists, io: B.Io)
  {
    function Ata(): B.Event { B.Event(pkt.ata, lists.racl, lists.wacl, io) }

    function Cfg(): C.Event { C.Event(pkt.cfg, lists.cfgracl, lists.cfgsetacl) }

    predicate Valid()
    {
      pkt.WellFormed() && (pkt.IsAta() ==> Ata().Valid())
    }

    /** A CFG request of a host that the access list for it refuses. */
    predicate RefusedCfg() { pkt.IsCfg() && !Cfg().Permitted() }
  }

  datatype Address = Address(shelf: uint16, slot: byte)

  /** What is fixed when a device starts; `size` is the size of its file in sectors. */
  datatype Unit = Unit(host: Endian, addr: Address, size: nat)

  datatype Body =
    | AtaBody(cmdstat: bv8, errFeature: bv8, data: seq<bv8>)
    | IdentityBody(cmdstat: bv8, errFeature: bv8, words60: nat, words100: nat)
    | CfgBody(aoeverCmd: nat, data: seq<bv8>)

  datatype Reply = Reply(dest: Mac, verFlags: bv8, error: bv8, addr: Address, cmd: byte, tag: bv32, body: Body)

  /** qaoed_createpkt: the header of the request with destination, address, version and response flag of
      the reply. */
  function CreatePkt(addr: Address, h: Header, body: Body): Reply
  {
    Reply(h.src, h.verFlags | VERSION_ONE | FLAG_RSP, h.error, addr, h.cmd, h.tag, body)
  }

  function AtaReply(addr: Address, h: Header, a: B.Answer): Reply
  {
    match a
    case Ok(data) => CreatePkt(addr, h, AtaBody(READY_STAT, 0, data))
    case Failed(data) =>
      var r := CreatePkt(addr, h, AtaBody(READY_STAT | ERR_STAT, ABRT_ERR, data));
      r.(verFlags := r.verFlags | FLAG_ERR)
    case Refused => CreatePkt(addr, h, AtaBody(ERR_STAT | READY_STAT, ABRT_ERR, []))
    case Identity(m, n) => CreatePkt(addr, h, IdentityBody(READY_STAT, 0, m, n))
  }

  function CfgReply(addr: Address, h: Header, aoeverCmd: nat, error: bv8, data: seq<bv8>): Reply
  {
    var r := CreatePkt(addr, h, CfgBody(aoeverCmd % 16 + 16, data));
    if error == 0 then r else r.(verFlags := r.verFlags | FLAG_ERR, error := r.error | error)
  }

  /** What a device keeps: the file and the config string. */
  datatype Image = Image(disk: seq<bv8>, conf: C.Store)

  /** One job: the image after it, and what was sent. A comparison that reads beyond an array changes
      nothing; whether it is answered is undefined, and the model then sends nothing. */
  function Handle(dev: Unit, img: Image, j: Job): (r: (Image, seq<Reply>))
    requires img.conf.Valid() && j.Valid()
    ensures r.0.conf.Valid()
  {
    var h := j.pkt.hdr;
    if j.pkt.IsAta() then
      var (disk, a) := B.Serve(dev.size, img.disk, j.Ata());
      (Image(disk, img.conf), [AtaReply(dev.addr, h, a)])
    else if j.pkt.IsCfg() then
      var (conf, o) := C.Serve(dev.host, img.conf, j.Cfg());
      (Image(img.disk, conf),
       if o.Sent? then [CfgReply(dev.addr, h, j.pkt.cfg.aoeverCmd, o.error, o.data)] else [])
    else (img, [])
  }

  /* ---- Runs of a worker ---- */

  ghost predicate ValidJobs(jobs: seq<Job>)
  {
    forall i :: 0 <= i < |jobs| ==> jobs[i].Valid()
  }

  function Run(dev: Unit, img: Image, jobs: seq<Job>): (r: Image)
    requires img.conf.Valid() && ValidJobs(jobs)
    ensures r.conf.Valid()
  {
    if jobs == [] then img
    else
      var n := |jobs| - 1;
      Handle(dev, Run(dev, img, jobs[..n]), jobs[n]).0
  }

  /** What a run sends. */
  function Replies(dev: Unit, img: Image, jobs: seq<Job>): seq<Reply>
    requires img.conf.Valid() && ValidJobs(jobs)
  {
    if jobs == [] then []
    else
      var n := |jobs| - 1;
      Replies(dev, img, jobs[..n]) + Handle(dev, Run(dev, img, jobs[..n]), jobs[n]).1
  }

  /** A run without its refused CFG requests. */
  function Heard(jobs: seq<Job>): (r: seq<Job>)
    ensures ValidJobs(jobs) ==> ValidJobs(r)
  {
    if jobs == [] then []
    else
      var n := |jobs| - 1;
      Heard(jobs[..n]) + if jobs[n].RefusedCfg() then [] else [jobs[n]]
  }

  /** CFG requests of refused hosts might as well not have been sent: without them every run leaves the
      same file and the same string, and sends the same replies. */
  lemma {:induction false} RefusedLeaveNoTrace(dev: Unit, img: Image, jobs: seq<Job>)
    requires img.conf.Valid() && ValidJobs(jobs)
    ensures Run(dev, img, jobs) == Run(dev, img, Heard(jobs))
    ensures Replies(dev, img, jobs) == Replies(dev, img, Heard(jobs))
  {
    if jobs == [] {
    } else {
      var n := |jobs| - 1;
      var before, j := jobs[..n], jobs[n];
      RefusedLeaveNoTrace(dev, img, before);
      if j.RefusedCfg() {
        C.RefusedIsSilent(dev.host, Run(dev, img, before).conf, j.Cfg());
        assert Heard(jobs) == Heard(before);
        assert Replies(dev, img, before) + [] == Replies(dev, img, before);
      } else {
        assert Heard(jobs)[..|Heard(before)|] == Heard(before);
      }
    }
  }

  /** The ATA requests among the jobs of a run. */
  function AtaEvents(jobs: seq<Job>): seq<B.Event>
  {
    if jobs == [] then []
    else
      var n := |jobs| - 1;
      AtaEvents(jobs[..n]) + if jobs[n].pkt.IsAta() then [jobs[n].Ata()] else []
  }

  /** The CFG requests among the jobs of a run. */
  function CfgEvents(jobs: seq<Job>): seq<C.Event>
  {
    if jobs == [] then []
    else
      var n := |jobs| - 1;
      CfgEvents(jobs[..n]) + if jobs[n].pkt.IsCfg() then [jobs[n].Cfg()] else []
  }

  lemma {:induction false} EventsValid(jobs: seq<Job>)
    requires ValidJobs(jobs)
    ensures B.ValidRun(AtaEvents(jobs)) && C.ValidRun(CfgEvents(jobs))
  {
    if jobs != [] {
      EventsValid(jobs[..|jobs| - 1]);
    }
  }

  lemma AfterAppend(size: nat, store: seq<bv8>, run: seq<B.Event>, e: B.Event)
    requires B.ValidRun(run) && e.Valid()
    ensures B.ValidRun(run + [e])
    ensures B.After(size, store, run + [e]) == B.Serve(size, B.After(size, store, run), e).0
  {
    assert (run + [e])[..|run|] == run;
  }

  lemma CfgAfterAppend(host: Endian, st: C.Store, run: seq<C.Event>, e: C.Event)
    requires st.Valid() && C.ValidRun(run) && e.req.WellFormed()
    ensures C.ValidRun(run + [e])
    ensures C.After(host, st, run + [e]) == C.Serve(host, C.After(host, st, run), e).0
  {
    assert (run + [e])[..|run|] == run;
  }

  /** A worker keeps the two apart: over every run of jobs, short, unknown and interleaved ones
      included, the file is what the ATA requests alone make of it and the config string what the CFG
      requests alone make of it. */
  lemma RunProjects(dev: Unit, img: Image, jobs: seq<Job>)
    requires img.conf.Valid() && ValidJobs(jobs)
    ensures B.ValidRun(AtaEvents(jobs)) && C.ValidRun(CfgEvents(jobs))
    ensures Run(dev, img, jobs).disk == B.After(dev.size, img.disk, AtaEvents(jobs))
    ensures Run(dev, img, jobs).conf == C.After(dev.host, img.conf, CfgEvents(jobs))
  {
    EventsValid(jobs);
    RunDisk(dev, img, jobs);
    RunConf(dev, img, jobs);
  }

  lemma {:induction false} RunDisk(dev: Unit, img: Image, jobs: seq<Job>)
    requires img.conf.Valid() && ValidJobs(jobs) && B.ValidRun(AtaEvents(jobs))
    ensures Run(dev, img, jobs).disk == B.After(dev.size, img.disk, AtaEvents(jobs))
  {
    if jobs != [] {
      var n := |jobs| - 1;
      var before, j := jobs[..n], jobs[n];
      EventsValid(before);
      RunDisk(dev, img, before);
      HandleSplits(dev, Run(dev, img, before), j);
      if j.pkt.IsAta() {
        AfterAppend(dev.size, img.disk, AtaEvents(before), j.Ata());
      } else {
        assert AtaEvents(jobs) == AtaEvents(before);
      }
    }
  }

  lemma {:induction false} RunConf(dev: Unit, img: Image, jobs: seq<Job>)
    requires img.conf.Valid() && ValidJobs(jobs) && C.ValidRun(CfgEvents(jobs))
    ensures Run(dev, img, jobs).conf == C.After(dev.host, img.conf, CfgEvents(jobs))
  {
    if jobs != [] {
      var n := |jobs| - 1;
      var before, j := jobs[..n], jobs[n];
      EventsValid(before);
      RunConf(dev, img, before);
      HandleSplits(dev, Run(dev, img, before), j);
      if j.pkt.IsCfg() {
        CfgAfterAppend(dev.host, img.conf, CfgEvents(before), j.Cfg());
      } else {
        assert CfgEvents(jobs) == CfgEvents(before);
      }
    }
  }

  lemma HandleSplits(dev: Unit, img: Image, j: Job)
    requires img.conf.Valid() && j.Valid()
    ensures Handle(dev, img, j).0
         == Image(if j.pkt.IsAta() then B.Serve(dev.size, img.disk, j.Ata()).0 else img.disk,
                  if j.pkt.IsCfg() then C.Serve(dev.host, img.conf, j.Cfg()).0 else img.conf)
  {
  }

  /** After every run whose writes were complete, a permitted READ that gets all it asked for is answered
      with one reply, without an error, that carries sector by sector the data of the last accepted WRITE. */
  lemma {:induction false} ReadReplied(dev: Unit, img: Image, jobs: seq<Job>, j: Job, k: nat)
    requires img.conf.Valid() && ValidJobs(jobs) && j.Valid() && j.pkt.IsAta()
    requires forall i :: 0 <= i < |jobs| && jobs[i].pkt.IsAta() ==> B.Complete(jobs[i].Ata())
    requires B.WholeRead(Run(dev, img, jobs).disk, j.Ata()) && k < j.pkt.ata.nsect
    ensures B.ValidRun(AtaEvents(jobs))
    ensures var (img', sent) := Handle(dev, Run(dev, img, jobs), j);
            && img' == Run(dev, img, jobs)
            && |sent| == 1 && sent[0].body.AtaBody? && sent[0].body.cmdstat == READY_STAT
            && CarriesSector(sent[0].body.data, j.pkt.ata, k, B.Latest(img.disk, AtaEvents(jobs), j.pkt.ata.Start() + k))
  {
    RunProjects(dev, img, jobs);
    AllComplete(jobs);
    B.ReadReturnsLatest(dev.size, img.disk, AtaEvents(jobs), j.Ata(), k);
  }

  /** The data of a reply is as long as the request asked for, and has this sector in place `k`. */
  ghost predicate CarriesSector(data: seq<bv8>, req: B.AtaRequest, k: nat, sector: seq<bv8>)
  {
    |data| == req.Length() && (k + 1) * B.SECTOR <= |data| && data[k * B.SECTOR..(k + 1) * B.SECTOR] == sector
  }

  lemma {:induction false} AllComplete(jobs: seq<Job>)
    requires forall i :: 0 <= i < |jobs| && jobs[i].pkt.IsAta() ==> B.Complete(jobs[i].Ata())
    ensures forall i :: 0 <= i < |AtaEvents(jobs)| ==> B.Complete(AtaEvents(jobs)[i])
  {
    if jobs != [] {
      AllComplete(jobs[..|jobs| - 1]);
    }
  }

  /** After every run a permitted CFG READ is answered with the string that the last SET, or the first
      SET_IF_EMPTY on an empty string, decided. */
  lemma StringReplied(dev: Unit, img: Image, jobs: seq<Job>, j: Job)
    requires img.conf.Valid() && ValidJobs(jobs) && j.Valid()
    requires j.pkt.IsCfg() && j.pkt.cfg.Command() == C.Read && j.Cfg().Permitted()
    ensures C.ValidRun(CfgEvents(jobs))
    ensures Handle(dev, Run(dev, img, jobs), j).1
         == [CfgReply(dev.addr, j.pkt.hdr, j.pkt.cfg.aoeverCmd, 0, C.Decided(img.conf.Stored(), CfgEvents(jobs)))]
  {
    RunProjects(dev, img, jobs);
    C.ReadReturnsDecided(dev.host, img.conf, CfgEvents(jobs), j.Cfg());
  }

  /** Every reply answers its request: it goes to the sender, from the address of the device, with the
      tag and command of the request and the response flag; and there is never more than one. */
  lemma RepliesAreAddressed(dev: Unit, img: Image, j: Job, r: Reply)
    requires img.conf.Valid() && j.Valid() && r in Handle(dev, img, j).1
    ensures Handle(dev, img, j).1 == [r]
    ensures r.dest == j.pkt.hdr.src && r.addr == dev.addr && r.tag == j.pkt.hdr.tag && r.cmd == j.pkt.hdr.cmd
    ensures r.verFlags & FLAG_RSP != 0
  {
    FlagBits(j.pkt.hdr.verFlags);
  }

  /** The number of bytes that a transfer moves. */
  function Moved(img: Image, j: Job): int
    requires j.Valid() && j.pkt.IsAta()
  {
    if j.pkt.ata.Reads() then j.Ata().Got(|img.disk|) else j.io.n
  }

  predicate Transfers(j: Job)
  {
    j.Ata().Permitted() && (j.pkt.ata.Reads() || j.pkt.ata.Writes())
  }

  /** The request did what it asked for, as far as the daemon can tell. */
  predicate Succeeded(img: Image, j: Job)
    requires j.Valid() && j.pkt.IsAta()
  {
    (j.Ata().Permitted() && j.pkt.ata.cmdstat == B.WIN_IDENTIFY) || (Transfers(j) && Moved(img, j) > 0)
  }

  /** Every ATA request gets exactly one reply, and its status has the error bit exactly if the request did
      not succeed. */
  lemma StatusIsTruthful(dev: Unit, img: Image, j: Job)
    requires img.conf.Valid() && j.Valid() && j.pkt.IsAta()
    ensures var sent := Handle(dev, img, j).1;
            && |sent| == 1 && !sent[0].body.CfgBody?
            && (sent[0].body.cmdstat & ERR_STAT == 0 <==> Succeeded(img, j))
  {
  }

  lemma FlagBits(v: bv8)
    ensures (v | 0x10 | 0x08) & 0x04 == v & 0x04
    ensures (v | 0x10 | 0x08 | 0x04) & 0x04 == 0x04
    ensures (v | 0x10 | 0x08) & 0x08 == 0x08
    ensures (v | 0x10 | 0x08 | 0x04) & 0x08 == 0x08
  {
  }

  /** The error flag of the header is set only where a transfer failed, so an initiator must not rely on
      it: a refused request carries the error in its status alone. */
  lemma ErrorFlagIff(dev: Unit, img: Image, j: Job)
    requires img.conf.Valid() && j.Valid() && j.pkt.IsAta()
    ensures var r := AtaReply(dev.addr, j.pkt.hdr, B.Serve(dev.size, img.disk, j.Ata()).1);
            && Handle(dev, img, j).1 == [r]
            && (r.verFlags & FLAG_ERR != 0 <==>
                  j.pkt.hdr.verFlags & FLAG_ERR != 0
                  || (Transfers(j) && Moved(img, j) <= 0))
  {
    FlagBits(j.pkt.hdr.verFlags);
  }

  /* ---- Advertising ---- */

  const BROADCAST_MAC: Mac := [0xff, 0xff, 0xff, 0xff, 0xff, 0xff]

  /** The CFG READ that qaoed_dobcast makes up as if `src` had sent it. */
  function FakeRead(src: Mac): Packet
  {
    Packet(Header(src, VERSION_ONE | FLAG_RSP, 0, CMD_CFG, 0), CFGHDR_LEN,
           B.AtaRequest(src, 0, 0, 0, [], []), C.CfgRequest(src, 0x10, 0, []))
  }

  function Advert(addr: Address, conf: C.Store, src: Mac): Reply
    requires conf.Valid()
  {
    CfgReply(addr, FakeRead(src).hdr, 0x10, 0, conf.Stored())
  }

  /** The addresses that the first `n` rows of the list lead to an advertisement for. */
  function Advertised(acl: Acl, n: nat): seq<Mac>
    requires n <= |acl.rows|
  {
    if n == 0 then []
    else
      var m := acl.rows[n - 1].mac;
      Advertised(acl, n - 1)
      + if acl.rows[n - 1].rule == ACL_ACCEPT && Match(acl, m) == ACL_ACCEPT then [m] else []
  }

  /** To whom a device advertises itself. */
  function Audience(cfgracl: Option<Acl>): seq<Mac>
  {
    match cfgracl
    case None => [BROADCAST_MAC]
    case Some(acl) => Advertised(acl, |acl.rows|)
  }

  /** The replies of advertising to these addresses, in order. */
  function Adverts(addr: Address, conf: C.Store, to: seq<Mac>): (r: seq<Reply>)
    requires conf.Valid()
    ensures |r| == |to|
  {
    if to == [] then [] else Adverts(addr, conf, to[..|to| - 1]) + [Advert(addr, conf, to[|to| - 1])]
  }

  lemma AdvertisedStep(addr: Address, conf: C.Store, acl: Acl, i: nat)
    requires conf.Valid() && i < |acl.rows|
    ensures Adverts(addr, conf, Advertised(acl, i + 1))
         == Adverts(addr, conf, Advertised(acl, i))
            + if acl.rows[i].rule == ACL_ACCEPT && Permits(Some(acl), acl.rows[i].mac)
              then [Advert(addr, conf, acl.rows[i].mac)] else []
  {
    var to, m := Advertised(acl, i), acl.rows[i].mac;
    assert (to + [m])[..|to|] == to && to + [] == to;
  }

  /** The number of accept rows for an address. */
  function AcceptRows(acl: Acl, m: Mac, n: nat): nat
    requires n <= |acl.rows|
  {
    if n == 0 then 0
    else AcceptRows(acl, m, n - 1) + One(acl.rows[n - 1] == Row(ACL_ACCEPT, m))
  }

  /** The first row for an address is an accept row. */
  ghost predicate AcceptedFirst(acl: Acl, m: Mac)
  {
    exists i :: 0 <= i < |acl.rows| && acl.rows[i] == Row(ACL_ACCEPT, m)
                && forall k :: 0 <= k < i ==> acl.rows[k].mac != m
  }

  /** How often an address occurs. */
  function Times(to: seq<Mac>, m: Mac): nat
  {
    if to == [] then 0 else Times(to[..|to| - 1], m) + One(to[|to| - 1] == m)
  }

  lemma TimesAppend(to: seq<Mac>, x: Mac, add: bool, m: Mac)
    ensures Times(to + if add then [x] else [], m) == Times(to, m) + One(add && x == m)
  {
    assert (to + [x])[..|to|] == to && to + [] == to;
  }

  lemma {:induction false} AdvertisedTimes(acl: Acl, n: nat, m: Mac)
    requires n <= |acl.rows|
    ensures Times(Advertised(acl, n), m) == if Match(acl, m) == ACL_ACCEPT then AcceptRows(acl, m, n) else 0
  {
    if n > 0 {
      AdvertisedTimes(acl, n - 1, m);
      var row := acl.rows[n - 1];
      TimesAppend(Advertised(acl, n - 1), row.mac, row.rule == ACL_ACCEPT && Match(acl, row.mac) == ACL_ACCEPT, m);
    }
  }

  /** An address gets one advertisement for each of its accept rows if the access check accepts it, and
      none otherwise. */
  lemma AdvertisedCount(acl: Acl, m: Mac)
    ensures Times(Audience(Some(acl)), m)
         == if Match(acl, m) == ACL_ACCEPT then AcceptRows(acl, m, |acl.rows|) else 0
  {
    AdvertisedTimes(acl, |acl.rows|, m);
  }

  lemma {:induction false} MatchFirst(acl: Acl, m: Mac, i: nat)
    requires i < |acl.rows| && acl.rows[i].mac == m
    requires forall k :: 0 <= k < i ==> acl.rows[k].mac != m
    ensures Match(acl, m) == acl.rows[i].rule
    decreases i
  {
    if i > 0 {
      MatchFirst(Acl(acl.defaultpolicy, acl.rows[1..]), m, i - 1);
    }
  }

  lemma {:induction false} FirstRow(acl: Acl, m: Mac, i: nat) returns (f: nat)
    requires i < |acl.rows| && acl.rows[i].mac == m
    ensures f <= i && acl.rows[f].mac == m && forall k :: 0 <= k < f ==> acl.rows[k].mac != m
    decreases i
  {
    if k :| 0 <= k < i && acl.rows[k].mac == m {
      f := FirstRow(acl, m, k);
    } else {
      f := i;
    }
  }

  lemma {:induction false} AdvertisedHasRow(acl: Acl, n: nat, m: Mac)
    requires n <= |acl.rows|
    ensures m in Advertised(acl, n)
       <==> Match(acl, m) == ACL_ACCEPT && exists i :: 0 <= i < n && acl.rows[i] == Row(ACL_ACCEPT, m)
  {
    if n > 0 {
      AdvertisedHasRow(acl, n - 1, m);
    }
  }

  /** Advertising agrees with access control: an address is advertised to exactly if its first row is an
      accept row. Accept rows that an earlier row for the same address shadows send nothing, and a
      default policy of accept sends nothing either. */
  lemma AdvertisedIff(acl: Acl, m: Mac)
    ensures m in Audience(Some(acl)) <==> AcceptedFirst(acl, m)
  {
    AdvertisedHasRow(acl, |acl.rows|, m);
    if AcceptedFirst(acl, m) {
      var i :| 0 <= i < |acl.rows| && acl.rows[i] == Row(ACL_ACCEPT, m)
               && forall k :: 0 <= k < i ==> acl.rows[k].mac != m;
      MatchFirst(acl, m, i);
    }
    if m in Audience(Some(acl)) {
      var i :| 0 <= i < |acl.rows| && acl.rows[i] == Row(ACL_ACCEPT, m);
      var f := FirstRow(acl, m, i);
      MatchFirst(acl, m, f);
      assert acl.rows[f] == Row(ACL_ACCEPT, m);
    }
  }

  /** From the configuration to the wire: of the addresses that an access-list block names, the device
      advertises itself exactly to those whose first line is an accept line. */
  lemma AudienceOfBlock(lib: Library, c: seq<Line>, acl: Acl, m: Mac)
    requires Lawful(lib) && Compile(lib, c) == Some(acl)
    ensures m in Audience(Some(acl))
       <==> FirstNaming(lib, c, m).Some? && c[FirstNaming(lib, c, m).value].lvalue == "accept"
  {
    CompiledVerdict(lib, c, acl, m);
    AdvertisedHasRow(acl, |acl.rows|, m);
    AdvertisedIff(acl, m);
    if i :| 0 <= i < |acl.rows| && acl.rows[i].mac == m {
      var f := FirstRow(acl, m, i);
      MatchFirst(acl, m, f);
      if acl.rows[f].rule == ACL_ACCEPT {
        assert acl.rows[f] == Row(ACL_ACCEPT, m);
      }
    }
  }
}
