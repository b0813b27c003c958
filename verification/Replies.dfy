/** What initiators see: the fields of the replies that a device sends, for every request, and the bytes of its
    file afterwards. Nothing here is said through the functions that make the replies. */
module Replies {
  import opened Common
  import opened Aoe
  import opened AccessList
  import opened Lba
  import opened Engine
  import B = BlockStore
  import C = CfgString

  /** The access check: no list, or one that lets the host through. */
  ghost predicate Open(acl: Option<Acl>, h: Mac)
  {
    acl.None? || Lets(acl.value, h)
  }

  lemma OpenPermits(acl: Option<Acl>, h: Mac)
    ensures Permits(acl, h) <==> Open(acl, h)
  {
    if acl.Some? {
      MatchLets(acl.value, h);
    }
  }

  /** A reply to this request: destination, tag and command are taken from it, its flags are kept and those for
      the version and for a response added, and the error flag where there is an error. */
  ghost predicate Answers(dev: Unit, h: Header, r: Reply, failed: bool)
  {
    && r.dest == h.src && r.addr == dev.addr && r.cmd == h.cmd && r.tag == h.tag
    && r.verFlags == if failed then h.verFlags | 0x1c else h.verFlags | 0x18
  }

  /* ---- CFG requests ---- */

  /** A CFG reply with this error code, 0 for none, and this string. */
  ghost predicate CfgAnswer(dev: Unit, j: Job, sent: seq<Reply>, error: bv8, data: seq<bv8>)
  {
    && |sent| == 1 && Answers(dev, j.pkt.hdr, sent[0], error != 0)
    && sent[0].body == CfgBody(16 + j.pkt.cfg.aoeverCmd % 16, data)
    && sent[0].error == j.pkt.hdr.error | error
  }

  lemma CfgReplyAnswers(dev: Unit, j: Job, error: bv8, data: seq<bv8>)
    ensures CfgAnswer(dev, j, [CfgReply(dev.addr, j.pkt.hdr, j.pkt.cfg.aoeverCmd, error, data)], error, data)
  {
    if error == 0 {
      GoodReply(dev.addr, j.pkt.hdr, j.pkt.cfg.aoeverCmd, data);
    } else {
      BadReply(dev.addr, j.pkt.hdr, j.pkt.cfg.aoeverCmd, error, data);
    }
  }

  lemma GoodReply(addr: Address, h: Header, c: nat, data: seq<bv8>)
    ensures CfgReply(addr, h, c, 0, data)
         == Reply(h.src, h.verFlags | 0x18, h.error | 0, addr, h.cmd, h.tag, CfgBody(16 + c % 16, data))
  {
    Flags(h.verFlags, h.error);
  }

  lemma BadReply(addr: Address, h: Header, c: nat, error: bv8, data: seq<bv8>)
    requires error != 0
    ensures CfgReply(addr, h, c, error, data)
         == Reply(h.src, h.verFlags | 0x1c, h.error | error, addr, h.cmd, h.tag, CfgBody(16 + c % 16, data))
  {
    Flags(h.verFlags, h.error);
  }

  lemma Flags(v: bv8, e: bv8)
    ensures v | 0x10 | 0x08 == v | 0x18 && v | 0x10 | 0x08 | 0x04 == v | 0x1c && e | 0 == e
  {
  }

  /** The commands 0 to 2 are for hosts that may read the string, 3 and 4 for those that may set it; others are
      ignored. */
  ghost predicate CfgAllowed(j: Job)
  {
    var c := j.pkt.cfg.aoeverCmd % 16;
    && (c <= 2 ==> Open(j.lists.cfgracl, j.pkt.cfg.src))
    && (3 <= c <= 4 ==> Open(j.lists.cfgsetacl, j.pkt.cfg.src))
  }

  lemma CfgAllowedIff(j: Job)
    ensures j.Cfg().Permitted() <==> CfgAllowed(j)
  {
    OpenPermits(j.lists.cfgracl, j.pkt.cfg.src);
    OpenPermits(j.lists.cfgsetacl, j.pkt.cfg.src);
  }

  ghost predicate IsCfg(j: Job)
  {
    j.Valid() && j.pkt.hdr.cmd == 1 && j.pkt.len >= 32
  }

  lemma CfgIgnored(dev: Unit, img: Image, j: Job)
    requires img.conf.Valid() && IsCfg(j) && !CfgAllowed(j)
    ensures Handle(dev, img, j) == (img, [])
  {
    CfgAllowedIff(j);
  }

  /** READ is answered with the string. */
  lemma ReadAnswered(dev: Unit, img: Image, j: Job)
    requires img.conf.Valid() && IsCfg(j) && CfgAllowed(j) && j.pkt.cfg.aoeverCmd % 16 == 0
    ensures Handle(dev, img, j).0 == img
    ensures CfgAnswer(dev, j, Handle(dev, img, j).1, 0, img.conf.mem[..img.conf.len])
  {
    CfgAllowedIff(j);
    CfgReplyAnswers(dev, j, 0, img.conf.Stored());
  }

  /** What a host reads in the length field of the request: its bytes are the other way round on a little-endian
      one. */
  function LengthRead(host: Endian, n: uint16): nat
  {
    if host == Little then n % 256 * 256 + n / 256 else n
  }

  /** The matches are answered with the string or not at all: the exact one if the length as the host reads it is
      that of the string and the bytes are the same, the partial one if the array starts with the string of the
      request. */
  lemma MatchAnswered(dev: Unit, img: Image, j: Job)
    requires img.conf.Valid() && IsCfg(j) && CfgAllowed(j) && j.pkt.cfg.aoeverCmd % 16 in {1, 2}
    ensures Handle(dev, img, j).0 == img
    ensures var (st, n, raw) := (img.conf, j.pkt.cfg.cfgLen, j.pkt.cfg.raw);
            var answered := if j.pkt.cfg.aoeverCmd % 16 == 1
                            then LengthRead(dev.host, n) == st.len <= |raw| && st.mem[..st.len] == raw[..st.len]
                            else n <= 1024 && st.mem[..n] == raw[..n];
            if answered then CfgAnswer(dev, j, Handle(dev, img, j).1, 0, st.mem[..st.len])
            else Handle(dev, img, j).1 == []
  {
    CfgAllowedIff(j);
    CfgReplyAnswers(dev, j, 0, img.conf.Stored());
  }

  /** SET stores a string that fits and says so, or answers with error 2. */
  lemma SetAnswered(dev: Unit, img: Image, j: Job)
    requires img.conf.Valid() && IsCfg(j) && CfgAllowed(j) && j.pkt.cfg.aoeverCmd % 16 == 4
    ensures var (img', sent) := Handle(dev, img, j);
            && img'.disk == img.disk && img'.conf.Valid()
            && if j.pkt.cfg.cfgLen <= 1024 then
                 img'.conf.mem[..img'.conf.len] == j.pkt.cfg.raw[..j.pkt.cfg.cfgLen] && CfgAnswer(dev, j, sent, 0, [])
               else img' == img && CfgAnswer(dev, j, sent, 2, [])
  {
    CfgAllowedIff(j);
    CfgReplyAnswers(dev, j, 0, []);
    CfgReplyAnswers(dev, j, 2, []);
    C.ServeStored(dev.host, img.conf, j.Cfg());
  }

  /** SET_IF_EMPTY does the same for an empty string, and otherwise answers with error 4. */
  lemma FillAnswered(dev: Unit, img: Image, j: Job)
    requires img.conf.Valid() && IsCfg(j) && CfgAllowed(j) && j.pkt.cfg.aoeverCmd % 16 == 3
    ensures var (img', sent) := Handle(dev, img, j);
            && img'.disk == img.disk && img'.conf.Valid()
            && if img.conf.len == 0 && j.pkt.cfg.cfgLen <= 1024 then
                 img'.conf.mem[..img'.conf.len] == j.pkt.cfg.raw[..j.pkt.cfg.cfgLen] && CfgAnswer(dev, j, sent, 0, [])
               else img' == img && CfgAnswer(dev, j, sent, 4, [])
  {
    CfgAllowedIff(j);
    CfgReplyAnswers(dev, j, 0, []);
    CfgReplyAnswers(dev, j, 4, []);
    C.ServeStored(dev.host, img.conf, j.Cfg());
  }

  /** Any other command is answered with error 1. */
  lemma UnknownAnswered(dev: Unit, img: Image, j: Job)
    requires img.conf.Valid() && IsCfg(j) && j.pkt.cfg.aoeverCmd % 16 > 4
    ensures Handle(dev, img, j).0 == img && CfgAnswer(dev, j, Handle(dev, img, j).1, 1, [])
  {
    CfgReplyAnswers(dev, j, 1, []);
  }

  /** After every run a permitted READ is answered with the string that the last SET, or the first SET_IF_EMPTY
      on an empty string, decided. */
  lemma StringAnswered(dev: Unit, img: Image, jobs: seq<Job>, j: Job)
    requires img.conf.Valid() && ValidJobs(jobs) && IsCfg(j) && CfgAllowed(j) && j.pkt.cfg.aoeverCmd % 16 == 0
    ensures C.ValidRun(CfgEvents(jobs))
    ensures CfgAnswer(dev, j, Handle(dev, Run(dev, img, jobs), j).1, 0, C.Decided(img.conf.Stored(), CfgEvents(jobs)))
  {
    CfgAllowedIff(j);
    StringReplied(dev, img, jobs, j);
    CfgReplyAnswers(dev, j, 0, C.Decided(img.conf.Stored(), CfgEvents(jobs)));
  }

  /* ---- Advertisements ---- */

  lemma {:induction false} AdvertsCarry(addr: Address, conf: C.Store, to: seq<Mac>, k: nat)
    requires conf.Valid() && k < |to|
    ensures Adverts(addr, conf, to)[k] == Advert(addr, conf, to[k])
  {
    var n := |to| - 1;
    if k < n {
      AdvertsCarry(addr, conf, to[..n], k);
    }
  }

  /** Each advertisement is a CFG READ reply with tag 0 that carries the string, without an error, to the address
      that it is meant for. */
  lemma AdvertFields(addr: Address, conf: C.Store, to: seq<Mac>, k: nat)
    requires conf.Valid() && k < |to|
    ensures var r := Adverts(addr, conf, to)[k];
            && r.dest == to[k] && r.addr == addr && r.cmd == 1 && r.tag == 0 && r.error == 0 && r.verFlags == 0x18
            && r.body == CfgBody(16, conf.mem[..conf.len])
  {
    AdvertsCarry(addr, conf, to, k);
    assert ((0x10 as bv8) | 0x08) | 0x10 | 0x08 == 0x18;
  }

  /** Advertisements go to everybody if there is no access list, and else to the addresses whose first row is an
      accept row. */
  lemma AudienceIff(cfgracl: Option<Acl>, m: Mac)
    ensures m in Audience(cfgracl)
       <==> if cfgracl.None? then m == [0xff, 0xff, 0xff, 0xff, 0xff, 0xff]
            else exists i :: 0 <= i < |cfgracl.value.rows| && cfgracl.value.rows[i] == Row(1, m)
                             && forall k :: 0 <= k < i ==> cfgracl.value.rows[k].mac != m
  {
    if cfgracl.Some? {
      AdvertisedIff(cfgracl.value, m);
    }
  }

  /* ---- ATA requests ---- */

  ghost predicate IsAta(j: Job)
  {
    j.Valid() && j.pkt.hdr.cmd == 0 && j.pkt.len >= 36
  }

  /** READ and READ EXT, WRITE and WRITE EXT, IDENTIFY DEVICE. */
  predicate ReadCode(c: byte) { c == 0x20 || c == 0x24 }

  predicate WriteCode(c: byte) { c == 0x30 || c == 0x34 }

  predicate IdentifyCode(c: byte) { c == 0xec }

  /** Reading commands are for hosts that may read, writing ones for those that may write. */
  ghost predicate AtaAllowed(j: Job)
  {
    var c := j.pkt.ata.cmdstat;
    && (ReadCode(c) || IdentifyCode(c) ==> Open(j.lists.racl, j.pkt.ata.src))
    && (WriteCode(c) ==> Open(j.lists.wacl, j.pkt.ata.src))
  }

  lemma AtaAllowedIff(j: Job)
    ensures j.Ata().Permitted() <==> AtaAllowed(j)
  {
    OpenPermits(j.lists.racl, j.pkt.ata.src);
    OpenPermits(j.lists.wacl, j.pkt.ata.src);
  }

  /** One reply with this status; a failed transfer sets the error flag of the header, nothing clears it. */
  ghost predicate AtaAnswer(dev: Unit, j: Job, sent: seq<Reply>, failed: bool, body: Body)
  {
    && |sent| == 1 && Answers(dev, j.pkt.hdr, sent[0], failed)
    && sent[0].body == body && sent[0].error == j.pkt.hdr.error
  }

  lemma AtaReplyAnswers(dev: Unit, j: Job, data: seq<bv8>)
    ensures AtaAnswer(dev, j, [AtaReply(dev.addr, j.pkt.hdr, B.Ok(data))], false, AtaBody(0x40, 0, data))
    ensures AtaAnswer(dev, j, [AtaReply(dev.addr, j.pkt.hdr, B.Failed(data))], true, AtaBody(0x41, 0x04, data))
  {
    Flags(j.pkt.hdr.verFlags, 0);
  }

  /** What an ATA request does is what it does to the file. */
  lemma HandleAta(dev: Unit, img: Image, j: Job)
    requires img.conf.Valid() && IsAta(j)
    ensures var (disk, a) := B.Serve(dev.size, img.disk, j.Ata());
            Handle(dev, img, j) == (Image(disk, img.conf), [AtaReply(dev.addr, j.pkt.hdr, a)])
  {
  }

  /** Refused and unknown requests change nothing and are answered with an aborted status and no data. */
  lemma RefusedAnswered(dev: Unit, img: Image, j: Job)
    requires img.conf.Valid() && IsAta(j)
    requires var c := j.pkt.ata.cmdstat;
             !AtaAllowed(j) || !(ReadCode(c) || WriteCode(c) || IdentifyCode(c))
    ensures Handle(dev, img, j).0 == img
    ensures AtaAnswer(dev, j, Handle(dev, img, j).1, false, AtaBody(0x41, 0x04, []))
  {
    AtaAllowedIff(j);
    Flags(j.pkt.hdr.verFlags, 0);
  }

  /** IDENTIFY reports the size of the device in sectors, and in the field for 28-bit addresses no more than these
      can reach. */
  lemma IdentifyAnswered(dev: Unit, img: Image, j: Job)
    requires img.conf.Valid() && IsAta(j) && IdentifyCode(j.pkt.ata.cmdstat) && AtaAllowed(j)
    ensures Handle(dev, img, j).0 == img
    ensures AtaAnswer(dev, j, Handle(dev, img, j).1, false,
                      IdentityBody(0x40, 0, if dev.size <= 0x0fff_ffff then dev.size else 0x0fff_ffff, dev.size))
  {
    AtaAllowedIff(j);
    Flags(j.pkt.hdr.verFlags, 0);
  }

  /** Every sector below the reported sizes can be addressed: below the first in both modes, below the second
      with 48-bit addresses. */
  lemma ReportedSectorsReachable(dev: Unit, img: Image, j: Job, n: nat, flags: byte)
    requires img.conf.Valid() && IsAta(j) && IdentifyCode(j.pkt.ata.cmdstat) && AtaAllowed(j)
    ensures var sent := Handle(dev, img, j).1;
            && |sent| == 1 && sent[0].body.IdentityBody?
            && (n < sent[0].body.words60
                || (flags / 64 % 2 == 1 && n < sent[0].body.words100 && n < 0x1_0000_0000_0000) ==>
                  LbaOf(Encode(n, 6), flags) == n)
  {
    IdentifyAnswered(dev, img, j);
    if n < Capacity28(dev.size) || ((flags / 64) % 2 == 1 && n < dev.size && n < 0x1_0000_0000_0000) {
      AdvertisedSectorsReachable(dev.size, n, flags);
    }
  }

  /** The byte address of a request: six bytes, the lowest first, cut to 28 bits without the flag for 48, times
      the size of a sector. */
  function Position(req: B.AtaRequest): nat
    requires |req.lba| == 6
  {
    var b := req.lba;
    var b0: nat, b1: nat, b2: nat, b3: nat, b4: nat, b5: nat := b[0], b[1], b[2], b[3], b[4], b[5];
    var n := b0 + 0x100 * b1 + 0x1_0000 * b2 + 0x100_0000 * b3 + 0x1_0000_0000 * b4 + 0x100_0000_0000 * b5;
    512 * if req.flags / 64 % 2 == 1 then n else n % 0x1000_0000
  }

  lemma Unfolded(b: seq<byte>, k: nat)
    requires k < |b|
    ensures LittleEndian(b[k..]) == b[k] as int + 0x100 * LittleEndian(b[k + 1..])
  {
    assert b[k..][1..] == b[k + 1..];
  }

  lemma PositionIsOffset(req: B.AtaRequest)
    requires |req.lba| == 6
    ensures Position(req) == req.Offset()
  {
    var b := req.lba;
    assert b[0..] == b && b[6..] == [];
    Unfolded(b, 0);
    Unfolded(b, 1);
    Unfolded(b, 2);
    Unfolded(b, 3);
    Unfolded(b, 4);
    Unfolded(b, 5);
  }

  /** READ answers with what the file has from there on, as far as the system call got, and with what the reply
      buffer held after that; if it got nothing, with a failure. */
  lemma ReadTransferred(dev: Unit, img: Image, j: Job)
    requires img.conf.Valid() && IsAta(j) && ReadCode(j.pkt.ata.cmdstat) && AtaAllowed(j)
    ensures var (img', sent) := Handle(dev, img, j);
            var (pos, io) := (Position(j.pkt.ata), j.io);
            var got := if io.n <= |img.disk| - pos then io.n else |img.disk| - pos;
            && img' == img
            && if got <= 0 then AtaAnswer(dev, j, sent, true, AtaBody(0x41, 0x04, io.junk))
               else AtaAnswer(dev, j, sent, false, AtaBody(0x40, 0, img.disk[pos..pos + got] + io.junk[got..]))
  {
    AtaAllowedIff(j);
    PositionIsOffset(j.pkt.ata);
    HandleAta(dev, img, j);
    var got := j.Ata().Got(|img.disk|);
    if got <= 0 {
      AtaReplyAnswers(dev, j, j.io.junk);
    } else {
      AtaReplyAnswers(dev, j, img.disk[j.pkt.ata.Offset()..j.pkt.ata.Offset() + got] + j.io.junk[got..]);
    }
  }

  /** After WRITE the file has the bytes that the system call took, at the address and in order, and no other
      byte of it has changed; only where it has grown in front of them there are zeros. */
  ghost predicate Written(disk: seq<bv8>, pos: nat, data: seq<bv8>, disk': seq<bv8>)
  {
    && |disk'| == (if data != [] && pos + |data| > |disk| then pos + |data| else |disk|)
    && forall i :: 0 <= i < |disk'| ==>
         disk'[i] == if pos <= i < pos + |data| then data[i - pos] else if i < |disk| then disk[i] else 0
  }

  lemma OverwriteWrites(disk: seq<bv8>, pos: nat, data: seq<bv8>)
    ensures Written(disk, pos, data, B.Overwrite(disk, pos, data))
  {
    var disk' := B.Overwrite(disk, pos, data);
    forall i | 0 <= i < |disk'|
      ensures disk'[i] == if pos <= i < pos + |data| then data[i - pos] else if i < |disk| then disk[i] else 0
    {
      B.OverwriteByte(disk, pos, data, i);
    }
  }

  lemma WriteTransferred(dev: Unit, img: Image, j: Job)
    requires img.conf.Valid() && IsAta(j) && WriteCode(j.pkt.ata.cmdstat) && AtaAllowed(j)
    ensures var (img', sent) := Handle(dev, img, j);
            && img'.conf == img.conf
            && if j.io.n <= 0 then img' == img && AtaAnswer(dev, j, sent, true, AtaBody(0x41, 0x04, []))
               else Written(img.disk, Position(j.pkt.ata), j.pkt.ata.data[..j.io.n], img'.disk)
                    && AtaAnswer(dev, j, sent, false, AtaBody(0x40, 0, []))
  {
    AtaAllowedIff(j);
    PositionIsOffset(j.pkt.ata);
    HandleAta(dev, img, j);
    AtaReplyAnswers(dev, j, []);
    if j.io.n > 0 {
      OverwriteWrites(img.disk, Position(j.pkt.ata), j.pkt.ata.data[..j.io.n]);
    }
  }

  /** Packets that are too short for their command, or have another one, do nothing. */
  lemma OthersIgnored(dev: Unit, img: Image, j: Job)
    requires img.conf.Valid() && j.Valid() && !IsAta(j) && !IsCfg(j)
    ensures Handle(dev, img, j) == (img, [])
  {
  }
}
