/** The meaning of ATA requests on the exported file (qaoed_processATA and qaoed_transfer in devices.c):
    access lists, the sector transfers and their error returns, and the sector map that the byte file
    implements over whole runs. */
module BlockStore {
  import opened Common
  import opened AccessList
  import opened Lba

  const WIN_READ: nat := 0x20
  const WIN_READ_EXT: nat := 0x24
  const WIN_WRITE: nat := 0x30
  const WIN_WRITE_EXT: nat := 0x34
  const WIN_IDENTIFY: nat := 0xEC

  const SECTOR: nat := 512

  /** The ATA part of a request; `data` is what follows the header. */
  datatype AtaRequest = AtaRequest(src: Mac, cmdstat: byte, flags: byte, nsect: byte, lba: seq<byte>, data: seq<bv8>)
  {
    predicate Reads() { cmdstat == WIN_READ || cmdstat == WIN_READ_EXT }

    predicate Writes() { cmdstat == WIN_WRITE || cmdstat == WIN_WRITE_EXT }

    function Start(): nat requires |lba| == 6 { LbaOf(lba, flags) }

    function Offset(): nat requires |lba| == 6 { Start() * SECTOR }

    function Length(): nat { nsect * SECTOR }

    /** A frame is as long as its header says. */
    predicate WellFormed() { |lba| == 6 && (Writes() ==> |data| == Length()) }
  }

  /** The outcome of lseek and read or write: at most `n` bytes transferred, or none if n <= 0. `junk` is
      what the reply buffer holds where nothing was read into it. */
  datatype Io = Io(n: int, junk: seq<bv8>)

  /** One request as a device meets it, with the access lists of that moment. */
  datatype Event = Event(req: AtaRequest, racl: Option<Acl>, wacl: Option<Acl>, io: Io)
  {
    predicate Permitted()
    {
      if req.Reads() || req.cmdstat == WIN_IDENTIFY then Permits(racl, req.src)
      else if req.Writes() then Permits(wacl, req.src)
      else true
    }

    /** What the system call can return. A write may go beyond the end of the file, which then grows. */
    predicate Valid()
    {
      req.WellFormed() && io.n <= req.Length() && |io.junk| == req.Length()
    }

    /** The number of bytes that a read of a file of that size gets: none at its end or beyond. */
    function Got(size: nat): (n: int)
      requires req.WellFormed()
      ensures n <= io.n && (n > 0 ==> req.Offset() + n <= size)
    {
      if io.n > size - req.Offset() then size - req.Offset() else io.n
    }
  }

  /** The reply to a data transfer or a refusal; IDENTIFY is answered with its capacities. */
  datatype Answer = Ok(data: seq<bv8>) | Failed(data: seq<bv8>) | Refused | Identity(words60: nat, words100: nat)

  function End(size: nat, pos: nat, len: nat): nat
  {
    if len > 0 && pos + len > size then pos + len else size
  }

  /** The file after a write: beyond its old end it grows, with zeros in a gap. */
  function Overwrite(store: seq<bv8>, pos: nat, data: seq<bv8>): (r: seq<bv8>)
    ensures |r| == End(|store|, pos, |data|)
  {
    if data == [] then store
    else
      var grown := store + Zeros(End(|store|, pos, |data|) - |store|);
      grown[..pos] + data + grown[pos + |data|..]
  }

  /** The store after a request, and its answer. `size` is the size in sectors at the start of the device. */
  function Serve(size: nat, store: seq<bv8>, e: Event): (seq<bv8>, Answer)
    requires e.Valid()
  {
    var req := e.req;
    if !e.Permitted() then (store, Refused)
    else if req.Reads() then
      var n := e.Got(|store|);
      if n <= 0 then (store, Failed(e.io.junk))
      else (store, Ok(store[req.Offset()..req.Offset() + n] + e.io.junk[n..]))
    else if req.Writes() then
      if e.io.n <= 0 then (store, Failed([]))
      else (Overwrite(store, req.Offset(), req.data[..e.io.n]), Ok([]))
    else if req.cmdstat == WIN_IDENTIFY then (store, Identity(Capacity28(size), size))
    else (store, Refused)
  }

  /* ---- Runs ---- */

  ghost predicate ValidRun(run: seq<Event>)
  {
    forall i :: 0 <= i < |run| ==> run[i].Valid()
  }

  function After(size: nat, store: seq<bv8>, run: seq<Event>): (r: seq<bv8>)
    requires ValidRun(run)
    ensures |r| >= |store|
  {
    if run == [] then store
    else Serve(size, After(size, store, run[..|run| - 1]), run[|run| - 1]).0
  }

  /** A write that was carried out. */
  predicate Accepted(e: Event)
  {
    e.req.Writes() && e.Permitted() && e.io.n > 0
  }

  /** A write that was carried out was carried out completely. */
  predicate Complete(e: Event)
  {
    Accepted(e) ==> e.io.n == e.req.Length()
  }

  predicate Covers(e: Event, k: nat)
    requires e.req.WellFormed()
  {
    e.req.Start() <= k < e.req.Start() + e.req.nsect
  }

  function ByteAt(store: seq<bv8>, i: nat): bv8
  {
    if i < |store| then store[i] else 0
  }

  /** The contents of a sector, with zeros where the file has not been written so far. */
  function Sector(store: seq<bv8>, k: nat): (r: seq<bv8>)
    ensures |r| == SECTOR
  {
    seq(SECTOR, i requires 0 <= i < SECTOR => ByteAt(store, k * SECTOR + i))
  }

  /** The part of a write's data that goes to sector `k`. */
  function Slice(e: Event, k: nat): (r: seq<bv8>)
    requires e.req.WellFormed() && e.req.Writes() && Covers(e, k)
    ensures |r| == SECTOR
  {
    var j := k - e.req.Start();
    assert (j + 1) * SECTOR <= e.req.nsect * SECTOR;
    e.req.data[j * SECTOR..(j + 1) * SECTOR]
  }

  /** The last accepted write that covers sector `k`. */
  function LastWrite(run: seq<Event>, k: nat): (r: Option<nat>)
    requires forall i :: 0 <= i < |run| ==> run[i].req.WellFormed()
    ensures r.Some? ==> r.value < |run| && Accepted(run[r.value]) && Covers(run[r.value], k)
                        && forall i :: r.value < i < |run| ==> !(Accepted(run[i]) && Covers(run[i], k))
    ensures r.None? ==> forall i :: 0 <= i < |run| ==> !(Accepted(run[i]) && Covers(run[i], k))
  {
    if run == [] then None
    else
      var n := |run| - 1;
      if Accepted(run[n]) && Covers(run[n], k) then Some(n) else LastWrite(run[..n], k)
  }

  /** The sector map: the data of the last accepted write, or the initial contents. */
  function Latest(store: seq<bv8>, run: seq<Event>, k: nat): seq<bv8>
    requires ValidRun(run)
  {
    match LastWrite(run, k)
    case None => Sector(store, k)
    case Some(i) => Slice(run[i], k)
  }

  lemma OverwriteByte(store: seq<bv8>, pos: nat, data: seq<bv8>, i: nat)
    ensures ByteAt(Overwrite(store, pos, data), i)
         == if pos <= i < pos + |data| then data[i - pos] else ByteAt(store, i)
  {
  }

  /** A write of whole sectors changes exactly the sectors that it covers. */
  lemma OverwriteSector(store: seq<bv8>, s: nat, n: nat, data: seq<bv8>, k: nat)
    requires |data| == n * SECTOR
    ensures Sector(Overwrite(store, s * SECTOR, data), k)
         == if s <= k < s + n then data[(k - s) * SECTOR..(k - s + 1) * SECTOR] else Sector(store, k)
  {
    var new_ := Sector(Overwrite(store, s * SECTOR, data), k);
    var want := if s <= k < s + n then data[(k - s) * SECTOR..(k - s + 1) * SECTOR] else Sector(store, k);
    assert k >= s ==> k * SECTOR - s * SECTOR == (k - s) * SECTOR;
    assert k >= s + n ==> k * SECTOR >= s * SECTOR + n * SECTOR;
    assert k < s ==> (k + 1) * SECTOR <= s * SECTOR;
    forall i | 0 <= i < SECTOR ensures new_[i] == want[i] {
      OverwriteByte(store, s * SECTOR, data, k * SECTOR + i);
    }
    assert |new_| == |want|;
  }

  /** One step keeps the sector map: a complete accepted write changes exactly the sectors it covers. */
  lemma ServeSector(size: nat, store: seq<bv8>, e: Event, k: nat)
    requires e.Valid() && Complete(e)
    ensures Sector(Serve(size, store, e).0, k)
         == if Accepted(e) && Covers(e, k) then Slice(e, k) else Sector(store, k)
  {
    if Accepted(e) {
      assert e.req.data[..e.io.n] == e.req.data;
      OverwriteSector(store, e.req.Start(), e.req.nsect, e.req.data, k);
    }
  }

  /** Over every run of requests whose writes are complete, the byte file implements the sector map, for
      every sector, also beyond the end that the file had at first. */
  lemma {:induction false} FileRefinesSectorMap(size: nat, store: seq<bv8>, run: seq<Event>, k: nat)
    requires ValidRun(run) && forall i :: 0 <= i < |run| ==> Complete(run[i])
    ensures Sector(After(size, store, run), k) == Latest(store, run, k)
  {
    if run == [] {
    } else {
      var n := |run| - 1;
      FileRefinesSectorMap(size, store, run[..n], k);
      ServeSector(size, After(size, store, run[..n]), run[n], k);
    }
  }

  /** The answer to `e` carries `sector` in its place `j`, and the request leaves the file alone. */
  ghost predicate Returns(size: nat, file: seq<bv8>, e: Event, j: nat, sector: seq<bv8>)
    requires e.Valid()
  {
    var (file', answer) := Serve(size, file, e);
    && file' == file
    && answer.Ok? && |answer.data| == e.req.Length()
    && (j + 1) * SECTOR <= |answer.data|
    && answer.data[j * SECTOR..(j + 1) * SECTOR] == sector
  }

  lemma SectorInside(file: seq<bv8>, s: nat, n: nat, j: nat)
    requires s * SECTOR + n * SECTOR <= |file| && j < n
    ensures (j + 1) * SECTOR <= n * SECTOR
    ensures file[s * SECTOR..s * SECTOR + n * SECTOR][j * SECTOR..(j + 1) * SECTOR] == Sector(file, s + j)
  {
    var pos, len := s * SECTOR, n * SECTOR;
    assert (j + 1) * SECTOR <= len && (s + j) * SECTOR == pos + j * SECTOR;
    var x, y := file[pos..pos + len][j * SECTOR..(j + 1) * SECTOR], Sector(file, s + j);
    assert |x| == |y|;
    forall i | 0 <= i < |x| ensures x[i] == y[i] {
      assert x[i] == file[pos..pos + len][j * SECTOR + i] == file[pos + j * SECTOR + i];
      assert y[i] == ByteAt(file, pos + j * SECTOR + i);
    }
  }

  /** A permitted read of a range inside the file that gets all of it. */
  predicate WholeRead(file: seq<bv8>, e: Event)
    requires e.Valid()
  {
    e.req.Reads() && e.Permitted() && e.Got(|file|) == e.req.Length()
  }

  lemma CompleteRead(size: nat, file: seq<bv8>, e: Event, j: nat)
    requires e.Valid() && WholeRead(file, e) && j < e.req.nsect
    ensures Returns(size, file, e, j, Sector(file, e.req.Start() + j))
  {
    var pos, len := e.req.Offset(), e.req.Length();
    assert e.io.junk[len..] == [] && file[pos..pos + len] + [] == file[pos..pos + len];
    SectorInside(file, e.req.Start(), e.req.nsect, j);
  }

  /** A permitted READ that gets all it asked for returns, sector by sector, the latest contents. */
  lemma ReadReturnsLatest(size: nat, store: seq<bv8>, run: seq<Event>, e: Event, j: nat)
    requires ValidRun(run) && forall i :: 0 <= i < |run| ==> Complete(run[i])
    requires e.Valid() && WholeRead(After(size, store, run), e) && j < e.req.nsect
    ensures Returns(size, After(size, store, run), e, j, Latest(store, run, e.req.Start() + j))
  {
    CompleteRead(size, After(size, store, run), e, j);
    FileRefinesSectorMap(size, store, run, e.req.Start() + j);
  }

  /** Requests that are refused, unknown, fail or ask for no sector leave the store unchanged; a request
      of zero sectors always fails. */
  lemma UnchangedUnlessWritten(size: nat, store: seq<bv8>, e: Event)
    requires e.Valid()
    ensures Serve(size, store, e).0 != store ==> Accepted(e) && e.req.nsect > 0
    ensures e.req.nsect == 0 && e.Permitted() && (e.req.Reads() || e.req.Writes()) ==>
              Serve(size, store, e).1.Failed?
  {
  }

  /** The file has this data in this place. */
  predicate Holds(file: seq<bv8>, pos: nat, data: seq<bv8>)
  {
    pos + |data| <= |file| && file[pos..pos + |data|] == data
  }

  /** A part of the data written is all of it exactly if the rest was there already. */
  lemma PartlyOverwritten(store: seq<bv8>, pos: nat, d: seq<bv8>, n: nat)
    requires 0 < n <= |d|
    ensures Holds(Overwrite(store, pos, d[..n]), pos, d) <==> n == |d| || Holds(store, pos + n, d[n..])
  {
    var store' := Overwrite(store, pos, d[..n]);
    forall i | 0 <= i < |d|
      ensures ByteAt(store', pos + i) == if i < n then d[i] else ByteAt(store, pos + i)
    {
      OverwriteByte(store, pos, d[..n], pos + i);
    }
    if pos + |d| <= |store'| {
      HoldsBytes(store', pos, d);
    }
    if n < |d| && pos + |d| <= |store| {
      HoldsBytes(store, pos + n, d[n..]);
    }
  }

  lemma HoldsBytes(file: seq<bv8>, pos: nat, data: seq<bv8>)
    requires pos + |data| <= |file|
    ensures Holds(file, pos, data) <==> forall i :: 0 <= i < |data| ==> ByteAt(file, pos + i) == data[i]
  {
    var part := file[pos..pos + |data|];
    assert forall i :: 0 <= i < |data| ==> part[i] == ByteAt(file, pos + i);
  }

  /** A write answered without an error flag has put all its data on the file exactly if the transfer was
      complete, or what it did not transfer was there already. A short count is not an error, neither in
      the middle of the file nor at its end. */
  lemma AcknowledgedWrite(size: nat, store: seq<bv8>, e: Event)
    requires e.Valid() && Accepted(e)
    ensures var (store', answer) := Serve(size, store, e);
            var (pos, len, n) := (e.req.Offset(), e.req.Length(), e.io.n);
            && answer == Ok([])
            && (Holds(store', pos, e.req.data) <==> n == len || Holds(store, pos + n, e.req.data[n..]))
  {
    PartlyOverwritten(store, e.req.Offset(), e.req.data, e.io.n);
  }

  /** The concrete case: one byte of a sector transferred, and the write acknowledged. */
  lemma ShortWriteAcknowledged(size: nat)
    ensures exists store, e: Event ::
              && e.Valid() && Accepted(e) && e.req.Offset() + e.req.Length() <= |store|
              && Serve(size, store, e).1 == Ok([])
              && !Holds(Serve(size, store, e).0, e.req.Offset(), e.req.data)
  {
    var zero, ones := Zeros(512), seq(512, _ => 1 as bv8);
    var req := AtaRequest([0, 0, 0, 0, 0, 0], WIN_WRITE, 0, 1, [0, 0, 0, 0, 0, 0], ones);
    ZeroBytes(req.lba);
    var e := Event(req, None, None, Io(1, Zeros(512)));
    AcknowledgedWrite(size, zero, e);
    assert zero[1..512][0] != ones[1..][0];
    assert !Holds(Serve(size, zero, e).0, req.Offset(), e.req.data);
  }

  lemma {:induction false} ZeroBytes(b: seq<byte>)
    requires forall i :: 0 <= i < |b| ==> b[i] == 0
    ensures LittleEndian(b) == 0
  {
    if b == [] {
    } else {
      ZeroBytes(b[1..]);
    }
  }

  /** What the file says of the first bytes decides nothing: they come from it. */
  lemma HoldsTail(store: seq<bv8>, pos: nat, n: nat, junk: seq<bv8>)
    requires n <= |junk| && pos + n <= |store|
    ensures var data := store[pos..pos + n] + junk[n..];
            Holds(store, pos, data) <==> n == |junk| || Holds(store, pos + n, junk[n..])
  {
    var data := store[pos..pos + n] + junk[n..];
    if pos + |data| <= |store| {
      if Holds(store, pos + n, junk[n..]) {
        assert store[pos..pos + |data|] == store[pos..pos + n] + store[pos + n..pos + |data|];
      }
      if Holds(store, pos, data) && n < |junk| {
        assert store[pos + n..pos + |junk|] == store[pos..pos + |data|][n..];
        assert data[n..] == junk[n..];
      }
    }
  }

  /** The same for a READ: a short count is answered as a complete one, and the answer is what the file
      holds exactly if the reply buffer happened to hold the rest. */
  lemma AcknowledgedRead(size: nat, store: seq<bv8>, e: Event)
    requires e.Valid() && e.req.Reads() && e.Permitted() && e.Got(|store|) > 0
    ensures var answer := Serve(size, store, e).1;
            var (pos, n) := (e.req.Offset(), e.Got(|store|));
            && answer.Ok? && |answer.data| == e.req.Length()
            && (Holds(store, pos, answer.data) <==> n == e.req.Length() || Holds(store, pos + n, e.io.junk[n..]))
  {
    HoldsTail(store, e.req.Offset(), e.Got(|store|), e.io.junk);
  }
}
