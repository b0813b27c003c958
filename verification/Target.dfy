/** The code of devices.c that serves one work entry, in place on the file and the config array of a
    device. Every method is tied to Engine.Handle, and every path through ProcessWork releases the work
    entry exactly once. */
module Target {
  import opened Common
  import opened Aoe
  import opened AccessList
  import opened Lba
  import opened Engine
  import B = BlockStore
  import C = CfgString

  /** A work entry as a worker sees it: `aoepkt` may be NULL, `drops` counts the calls of
      qaoed_workdestroy by this worker. */
  class Work {
    const aoepkt: Option<Packet>
    var drops: nat

    constructor (aoepkt: Option<Packet>)
      ensures this.aoepkt == aoepkt && drops == 0
    {
      this.aoepkt := aoepkt;
      drops := 0;
    }

    method Destroy()
      modifies this
      ensures drops == old(drops) + 1
    {
      drops := drops + 1;
    }
  }

  /** struct aoedev, without its queue. `disk` is the open file, which writes may extend, `size` its size
      in sectors at the start, and `sent` what went out. */
  class Device {
    const host: Endian
    const addr: Address
    const size: nat
    var disk: seq<bv8>
    const cfg: array<bv8>
    var cfgLen: nat
    var lists: Lists
    var sent: seq<Reply>

    ghost predicate Valid()
      reads this
    {
      cfg.Length == C.CFG_MAX && cfgLen <= C.CFG_MAX
    }

    ghost function Fixed(): Unit
    {
      Unit(host, addr, size)
    }

    ghost function View(): (img: Image)
      requires Valid()
      reads this, cfg
      ensures img.conf.Valid()
    {
      Image(disk, C.Store(cfg[..], cfgLen))
    }

    /** qaoed_startdevice, for a regular file. */
    constructor (host: Endian, addr: Address, disk: seq<bv8>, lists: Lists)
      ensures Valid() && Fixed() == Unit(host, addr, |disk| / 512) && this.lists == lists
      ensures fresh(cfg) && View().conf.Stored() == [] && View().disk == disk && sent == []
    {
      this.host, this.addr, this.disk, this.lists := host, addr, disk, lists;
      size := |disk| / 512;
      cfg := new bv8[C.CFG_MAX];
      cfgLen := 0;
      sent := [];
    }

    method Xmit(r: Reply)
      modifies this`sent
      ensures sent == old(sent) + [r]
    {
      sent := sent + [r];
    }

    /** The check `acl != NULL && aclmatch(...) != ACL_ACCEPT`, negated. */
    method Allowed(acl: Option<Acl>, src: Mac) returns (ok: bool)
      ensures ok <==> Permits(acl, src)
    {
      if acl.None? {
        return true;
      }
      var rule := AclMatch(acl.value, src);
      return rule == ACL_ACCEPT;
    }

    /** qaoed_file_write: the system call extends the file if need be and stores the first `n` bytes. */
    method FileWrite(data: seq<bv8>, pos: nat, n: int)
      requires n <= |data|
      modifies this`disk
      ensures disk == if n <= 0 then old(disk) else B.Overwrite(old(disk), pos, data[..n])
    {
      if n <= 0 {
        return;
      }
      ghost var was := disk;
      while |disk| < pos + n
        invariant |was| <= |disk| <= B.End(|was|, pos, n)
        invariant forall k :: 0 <= k < |disk| ==> disk[k] == B.ByteAt(was, k)
      {
        disk := disk + [0];
      }
      var i := 0;
      while i < n
        invariant 0 <= i <= n && |disk| == B.End(|was|, pos, n)
        invariant forall k :: 0 <= k < |disk| ==>
                    disk[k] == if pos <= k < pos + i then data[k - pos] else B.ByteAt(was, k)
      {
        disk := disk[pos + i := data[i]];
        i := i + 1;
      }
      ghost var want := B.Overwrite(was, pos, data[..n]);
      forall k | 0 <= k < |disk| ensures disk[k] == want[k] {
        B.OverwriteByte(was, pos, data[..n], k);
      }
    }

    /** qaoed_file_read: the system call fills the front of the reply buffer, with no more than the file
        holds from there on and no more than `n` bytes, and leaves the rest of the buffer. */
    method FileRead(buff: array<bv8>, pos: nat, n: int) returns (got: int)
      requires n <= buff.Length
      modifies buff
      ensures got == if n > |disk| - pos then |disk| - pos else n
      ensures buff[..] == if got <= 0 then old(buff[..]) else disk[pos..pos + got] + old(buff[..])[got..]
    {
      got := n;
      if got > |disk| - pos {
        got := |disk| - pos;
      }
      var i := 0;
      while i < got
        invariant 0 <= i <= (if got > 0 then got else 0)
        invariant forall k :: 0 <= k < buff.Length ==> buff[k] == if k < i then disk[pos + k] else old(buff[k])
      {
        buff[i] := disk[pos + i];
        i := i + 1;
      }
    }

    /** qaoed_transfer, for the four commands that reach it. */
    method Transfer(j: Job)
      requires Valid() && j.Valid() && j.pkt.IsAta() && Transfers(j)
      modifies this`sent, this`disk
      ensures Valid()
      ensures View() == Handle(Fixed(), old(View()), j).0
      ensures sent == old(sent) + Handle(Fixed(), old(View()), j).1
    {
      var req := j.pkt.ata;
      var ppos := DecodeLba(req.lba, req.flags);
      ppos := ppos * 512;
      var a;
      if req.cmdstat == B.WIN_READ || req.cmdstat == B.WIN_READ_EXT {
        a := ReadCase(j, ppos);
      } else {
        a := WriteCase(j, ppos);
      }
      Xmit(AtaReply(addr, j.pkt.hdr, a));
    }

    /** Its two cases. */
    method ReadCase(j: Job, ppos: nat) returns (a: B.Answer)
      requires j.Valid() && j.pkt.IsAta() && j.pkt.ata.Reads() && j.Ata().Permitted() && ppos == j.pkt.ata.Offset()
      ensures (disk, a) == B.Serve(size, disk, j.Ata())
    {
      var len := j.pkt.ata.nsect * 512;
      var buff := new bv8[len](i requires 0 <= i < len => j.io.junk[i]);
      assert buff[..] == j.io.junk;
      var got := FileRead(buff, ppos, j.io.n);
      a := if got <= 0 then B.Failed(buff[..]) else B.Ok(buff[..]);
    }

    method WriteCase(j: Job, ppos: nat) returns (a: B.Answer)
      requires j.Valid() && j.pkt.IsAta() && j.pkt.ata.Writes() && j.Ata().Permitted() && ppos == j.pkt.ata.Offset()
      modifies this`disk
      ensures (disk, a) == B.Serve(size, old(disk), j.Ata())
    {
      FileWrite(j.pkt.ata.data, ppos, j.io.n);
      a := if j.io.n <= 0 then B.Failed([]) else B.Ok([]);
    }

    /** qaoed_processATA */
    method ProcessATA(j: Job, work: Work)
      requires Valid() && j.lists == lists && j.Valid() && j.pkt.IsAta()
      modifies this`sent, this`disk, work
      ensures Valid()
      ensures View() == Handle(Fixed(), old(View()), j).0
      ensures sent == old(sent) + Handle(Fixed(), old(View()), j).1
      ensures work.drops == old(work.drops) + 1
    {
      var req := j.pkt.ata;
      var ok := true;
      if req.Reads() || req.cmdstat == B.WIN_IDENTIFY {
        ok := Allowed(lists.racl, req.src);
      } else if req.Writes() {
        ok := Allowed(lists.wacl, req.src);
      }
      if ok && (req.Reads() || req.Writes()) {
        Transfer(j);
      } else if ok && req.cmdstat == B.WIN_IDENTIFY {
        Xmit(AtaReply(addr, j.pkt.hdr, B.Identity(if size > MAXATALBA then MAXATALBA else size, size)));
      } else {
        Xmit(AtaReply(addr, j.pkt.hdr, B.Refused));
      }
      work.Destroy();
    }

    /** The memcpy into the config array and its new length. */
    method SetString(data: seq<bv8>)
      requires Valid() && |data| <= C.CFG_MAX
      modifies this`cfgLen, cfg
      ensures Valid() && View().conf == C.Assign(old(View()).conf, data)
      ensures disk == old(disk)
    {
      var i := 0;
      while i < |data|
        invariant 0 <= i <= |data|
        invariant forall k :: 0 <= k < cfg.Length ==> cfg[k] == if k < i then data[k] else old(cfg[k])
        invariant disk == old(disk)
      {
        cfg[i] := data[i];
        i := i + 1;
      }
      cfgLen := |data|;
    }

    method CfgXmit(h: Header, aoeverCmd: nat, error: bv8, data: seq<bv8>)
      modifies this`sent
      ensures sent == old(sent) + [CfgReply(addr, h, aoeverCmd, error, data)]
    {
      Xmit(CfgReply(addr, h, aoeverCmd, error, data));
    }

    /** The requests that read or compare the config string. `req.cfgLen` is compared as the host reads
        it, `n` is the length in network order. */
    method Query(j: Job)
      requires Valid() && j.Valid() && j.pkt.IsCfg() && j.Cfg().Permitted()
      requires !j.pkt.IsAta() && j.pkt.cfg.Command() in {C.Read, C.Match, C.MatchPartial}
      modifies this`sent
      ensures Valid()
      ensures View() == Handle(Fixed(), old(View()), j).0
      ensures sent == old(sent) + Handle(Fixed(), old(View()), j).1
    {
      assert sent == sent + [];
      var req, n := j.pkt.cfg, j.pkt.cfg.cfgLen;
      var answer := false;
      if req.Command() == C.Read {
        answer := true;
      } else if req.Command() == C.Match {
        answer := HostView(host, n) == cfgLen && cfgLen <= |req.raw| && cfg[..cfgLen] == req.raw[..cfgLen];
      } else {
        answer := n <= C.CFG_MAX && cfg[..n] == req.raw[..n];
      }
      assert View().conf.Stored() == cfg[..cfgLen];
      if answer {
        CfgXmit(j.pkt.hdr, req.aoeverCmd, 0, cfg[..cfgLen]);
      }
    }

    /** The requests that set the config string, and the unknown ones. */
    method Change(j: Job)
      requires Valid() && j.Valid() && j.pkt.IsCfg() && j.Cfg().Permitted()
      requires !j.pkt.IsAta() && j.pkt.cfg.Command() in {C.SetIfEmpty, C.Set, C.Unknown}
      modifies this`sent, this`cfgLen, cfg
      ensures Valid() && disk == old(disk)
      ensures View() == Handle(Fixed(), old(View()), j).0
      ensures sent == old(sent) + Handle(Fixed(), old(View()), j).1
    {
      var req, n, error := j.pkt.cfg, j.pkt.cfg.cfgLen, 0;
      match req.Command() {
        case SetIfEmpty =>
          if cfgLen == 0 && n <= C.CFG_MAX {
            SetString(req.raw[..n]);
          } else {
            error := C.AOE_ERR_CFG_SET;
          }
        case Set =>
          if n <= C.CFG_MAX {
            SetString(req.raw[..n]);
          } else {
            error := C.AOE_ERR_BADARG;
          }
        case _ =>
          error := C.AOE_ERR_BADCMD;
      }
      CfgXmit(j.pkt.hdr, req.aoeverCmd, error, []);
    }

    /** qaoed_processCFG */
    method ProcessCFG(j: Job, work: Work)
      requires Valid() && j.lists == lists && j.Valid() && j.pkt.IsCfg()
      modifies this`sent, this`cfgLen, cfg, work
      ensures Valid() && disk == old(disk)
      ensures View() == Handle(Fixed(), old(View()), j).0
      ensures sent == old(sent) + Handle(Fixed(), old(View()), j).1
      ensures work.drops == old(work.drops) + 1
    {
      assert sent == sent + [];
      var req := j.pkt.cfg;
      var ok := true;
      match req.Command() {
        case Read | Match | MatchPartial => ok := Allowed(lists.cfgracl, req.src);
        case SetIfEmpty | Set => ok := Allowed(lists.cfgsetacl, req.src);
        case Unknown =>
      }
      if ok {
        match req.Command() {
          case Read | Match | MatchPartial => Query(j);
          case _ => Change(j);
        }
      }
      work.Destroy();
    }

    /** qaoed_processwork. The file, the config string and the replies are those of Handle, and whatever
        the packet, the work entry is released exactly once. */
    method ProcessWork(work: Work, io: B.Io)
      requires Valid() && (work.aoepkt.Some? ==> Job(work.aoepkt.value, lists, io).Valid())
      modifies this`sent, this`cfgLen, this`disk, cfg, work
      ensures Valid()
      ensures work.drops == old(work.drops) + 1
      ensures work.aoepkt.None? ==> View() == old(View()) && sent == old(sent)
      ensures work.aoepkt.Some? ==>
                var (img, out) := Handle(Fixed(), old(View()), Job(work.aoepkt.value, old(lists), io));
                View() == img && sent == old(sent) + out
    {
      assert sent == sent + [];
      if work.aoepkt.None? {
        work.Destroy();
        return;
      }
      var pkt := work.aoepkt.value;
      var j := Job(pkt, lists, io);
      if pkt.hdr.cmd == CMD_ATA {
        if pkt.len >= ATAHDR_LEN {
          ProcessATA(j, work);
        } else {
          work.Destroy();
        }
      } else if pkt.hdr.cmd == CMD_CFG {
        if pkt.len >= CFGHDR_LEN {
          ProcessCFG(j, work);
        } else {
          work.Destroy();
        }
      } else {
        work.Destroy();
      }
    }

    /** qaoed_dobcast: an advertisement, unless the access list refuses the address it is meant for. */
    method Dobcast(src: Mac)
      requires Valid()
      modifies this`sent, this`cfgLen, this`disk, cfg
      ensures Valid() && View() == old(View())
      ensures sent == old(sent) + if Permits(lists.cfgracl, src) then [Advert(addr, old(View()).conf, src)] else []
    {
      var work := new Work(Some(FakeRead(src)));
      ProcessWork(work, B.Io(0, []));
    }

    /** qaoed_bcastdevice: one advertisement for each address of the audience, in the order of the list. */
    method BcastDevice()
      requires Valid()
      modifies this`sent, this`cfgLen, this`disk, cfg
      ensures Valid() && View() == old(View())
      ensures sent == old(sent) + Adverts(addr, old(View()).conf, Audience(old(lists).cfgracl))
    {
      ghost var conf := View().conf;
      if lists.cfgracl.None? {
        Dobcast(BROADCAST_MAC);
        assert Adverts(addr, conf, [BROADCAST_MAC][..0]) == [];
        assert sent == old(sent) + [Advert(addr, conf, BROADCAST_MAC)];
      } else {
        BcastRows(lists.cfgracl.value);
      }
    }

    /** The walk over the rows. */
    method BcastRows(acl: Acl)
      requires Valid() && lists.cfgracl == Some(acl)
      modifies this`sent, this`cfgLen, this`disk, cfg
      ensures Valid() && View() == old(View())
      ensures sent == old(sent) + Adverts(addr, old(View()).conf, Advertised(acl, |acl.rows|))
    {
      ghost var img, was, out := View(), sent, [];
      var i := 0;
      while i < |acl.rows|
        invariant Valid() && View() == img && i <= |acl.rows|
        invariant sent == was + out && out == Adverts(addr, img.conf, Advertised(acl, i))
      {
        ghost var more := BcastRow(acl, i, img);
        AdvertisedStep(addr, img.conf, acl, i);
        out := out + more;
        i := i + 1;
      }
    }

    /** One row. */
    method BcastRow(acl: Acl, i: nat, ghost img: Image) returns (ghost more: seq<Reply>)
      requires Valid() && View() == img && lists.cfgracl == Some(acl) && i < |acl.rows|
      modifies this`sent, this`cfgLen, this`disk, cfg
      ensures Valid() && View() == img && sent == old(sent) + more
      ensures more == if acl.rows[i].rule == ACL_ACCEPT && Permits(Some(acl), acl.rows[i].mac)
                      then [Advert(addr, img.conf, acl.rows[i].mac)] else []
    {
      more := [];
      if acl.rows[i].rule == ACL_ACCEPT {
        Dobcast(acl.rows[i].mac);
        more := if Permits(Some(acl), acl.rows[i].mac) then [Advert(addr, img.conf, acl.rows[i].mac)] else [];
      }
    }
  }
}
