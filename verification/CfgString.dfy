/** The config string of a device and the CFG requests on it (qaoed_processCFG in devices.c): the
    "Query Config Information" command of the ATA-over-Ethernet protocol. The string is the first `len`
    bytes of a 1024-byte array that keeps older bytes beyond them. */
module CfgString {
  import opened Common
  import opened Aoe
  import opened AccessList

  const CFG_MAX: nat := 1024

  datatype Command = Read | Match | MatchPartial | SetIfEmpty | Set | Unknown

  /** `aoever_cmd & 0x0f` */
  function CommandOf(aoeverCmd: nat): Command
  {
    match aoeverCmd % 16
    case 0 => Read
    case 1 => Match
    case 2 => MatchPartial
    case 3 => SetIfEmpty
    case 4 => Set
    case _ => Unknown
  }

  /** The CFG part of a request: the header's length field (its value in network order) and the bytes
      from the string on to the end of the receive buffer. */
  datatype CfgRequest = CfgRequest(src: Mac, aoeverCmd: nat, cfgLen: uint16, raw: seq<bv8>)
  {
    /** A frame is at least as long as its header says. */
    predicate WellFormed() { cfgLen <= |raw| }

    function Data(): seq<bv8> requires WellFormed() { raw[..cfgLen] }

    function Command(): Command { CommandOf(aoeverCmd) }
  }

  datatype Event = Event(req: CfgRequest, cfgracl: Option<Acl>, cfgsetacl: Option<Acl>)
  {
    predicate Permitted()
    {
      match req.Command()
      case Read => Permits(cfgracl, req.src)
      case Match => Permits(cfgracl, req.src)
      case MatchPartial => Permits(cfgracl, req.src)
      case SetIfEmpty => Permits(cfgsetacl, req.src)
      case Set => Permits(cfgsetacl, req.src)
      case Unknown => true
    }
  }

  datatype Store = Store(mem: seq<bv8>, len: nat)
  {
    predicate Valid() { |mem| == CFG_MAX && len <= CFG_MAX }

    function Stored(): seq<bv8> requires Valid() { mem[..len] }
  }

  const AOE_ERR_BADCMD: bv8 := 1
  const AOE_ERR_BADARG: bv8 := 2
  const AOE_ERR_CFG_SET: bv8 := 4

  /** `Sent`: a reply with this error code (0 for none) and string. `Undefined`: memcmp was given a
      length beyond one of the two arrays. */
  datatype Outcome = Silent | Sent(error: bv8, data: seq<bv8>) | Undefined

  function Assign(st: Store, data: seq<bv8>): Store
    requires st.Valid() && |data| <= CFG_MAX
  {
    Store(data + st.mem[|data|..], |data|)
  }

  /** One CFG request. The exact match compares the raw length field with the length; the partial match
      compares as many bytes of the array as the request has, whatever the length. */
  function Serve(host: Endian, st: Store, e: Event): (r: (Store, Outcome))
    requires st.Valid() && e.req.WellFormed()
    ensures r.0.Valid()
  {
    var req, n := e.req, e.req.cfgLen;
    if !e.Permitted() then (st, Silent)
    else
      match req.Command()
      case Read => (st, Sent(0, st.Stored()))
      case Match =>
        if HostView(host, n) != st.len then (st, Silent)
        else if st.len > |req.raw| then (st, Undefined)
        else if st.mem[..st.len] == req.raw[..st.len] then (st, Sent(0, st.Stored()))
        else (st, Silent)
      case MatchPartial =>
        if n > CFG_MAX then (st, Undefined)
        else if st.mem[..n] == req.raw[..n] then (st, Sent(0, st.Stored()))
        else (st, Silent)
      case SetIfEmpty =>
        if st.len == 0 && n <= CFG_MAX then (Assign(st, req.Data()), Sent(0, []))
        else (st, Sent(AOE_ERR_CFG_SET, []))
      case Set =>
        if n <= CFG_MAX then (Assign(st, req.Data()), Sent(0, []))
        else (st, Sent(AOE_ERR_BADARG, []))
      case Unknown => (st, Sent(AOE_ERR_BADCMD, []))
  }

  /* ---- Runs ---- */

  ghost predicate ValidRun(run: seq<Event>)
  {
    forall i :: 0 <= i < |run| ==> run[i].req.WellFormed()
  }

  function After(host: Endian, st: Store, run: seq<Event>): (r: Store)
    requires st.Valid() && ValidRun(run)
    ensures r.Valid()
  {
    if run == [] then st
    else Serve(host, After(host, st, run[..|run| - 1]), run[|run| - 1]).0
  }

  /** A permitted SET, or SET_IF_EMPTY, of a string that fits. */
  predicate Sets(e: Event, command: Command)
  {
    e.req.Command() == command && e.Permitted() && e.req.cfgLen <= CFG_MAX
  }

  function LastSet(run: seq<Event>): (r: Option<nat>)
    ensures r.Some? ==> r.value < |run| && Sets(run[r.value], Set)
                        && forall i :: r.value < i < |run| ==> !Sets(run[i], Set)
    ensures r.None? ==> forall i :: 0 <= i < |run| ==> !Sets(run[i], Set)
  {
    if run == [] then None
    else if Sets(run[|run| - 1], Set) then Some(|run| - 1)
    else LastSet(run[..|run| - 1])
  }

  /** The first permitted, fitting and non-empty SET_IF_EMPTY from index `k` on. */
  function FirstFill(run: seq<Event>, k: nat): (r: Option<nat>)
    requires k <= |run|
    ensures r.Some? ==> k <= r.value < |run| && Sets(run[r.value], SetIfEmpty) && run[r.value].req.cfgLen > 0
                        && forall i :: k <= i < r.value ==> !(Sets(run[i], SetIfEmpty) && run[i].req.cfgLen > 0)
    ensures r.None? ==> forall i :: k <= i < |run| ==> !(Sets(run[i], SetIfEmpty) && run[i].req.cfgLen > 0)
    decreases |run| - k
  {
    if k == |run| then None
    else if Sets(run[k], SetIfEmpty) && run[k].req.cfgLen > 0 then Some(k)
    else FirstFill(run, k + 1)
  }

  /** What the string is after a run: the data of the last SET, or, where that is empty, of the first
      SET_IF_EMPTY with data since. */
  function Decided(initial: seq<bv8>, run: seq<Event>): seq<bv8>
    requires ValidRun(run)
  {
    var last := LastSet(run);
    var base := if last.Some? then run[last.value].req.Data() else initial;
    if base != [] then base
    else
      match FirstFill(run, if last.Some? then last.value + 1 else 0)
      case None => []
      case Some(j) => run[j].req.Data()
  }

  lemma {:induction false} FirstFillAppend(run: seq<Event>, e: Event, k: nat)
    requires k <= |run|
    ensures FirstFill(run + [e], k)
         == if FirstFill(run, k).Some? then FirstFill(run, k)
            else if Sets(e, SetIfEmpty) && e.req.cfgLen > 0 then Some(|run|) else None
    decreases |run| - k
  {
    if k < |run| {
      assert (run + [e])[k] == run[k];
      FirstFillAppend(run, e, k + 1);
    } else {
      assert FirstFill(run + [e], |run| + 1) == None;
    }
  }

  lemma AssignStored(st: Store, data: seq<bv8>)
    requires st.Valid() && |data| <= CFG_MAX
    ensures Assign(st, data).Valid() && Assign(st, data).Stored() == data
  {
  }

  /** One request: only a permitted fitting SET, or SET_IF_EMPTY of an empty string, changes it. */
  lemma ServeStored(host: Endian, st: Store, e: Event)
    requires st.Valid() && e.req.WellFormed()
    ensures Serve(host, st, e).0.Stored()
         == if Sets(e, Set) || (Sets(e, SetIfEmpty) && st.Stored() == []) then e.req.Data() else st.Stored()
  {
    if e.req.cfgLen <= CFG_MAX {
      AssignStored(st, e.req.Data());
    }
  }

  /** Over every run the stored string is the one that the last deciding request set, and its length
      stays within the array. */
  lemma {:induction false} StoredIsDecided(host: Endian, st: Store, run: seq<Event>)
    requires st.Valid() && ValidRun(run)
    ensures After(host, st, run).len <= CFG_MAX
    ensures After(host, st, run).Stored() == Decided(st.Stored(), run)
  {
    if run == [] {
      assert Decided(st.Stored(), run) == st.Stored();
    } else {
      var n := |run| - 1;
      var before, e := run[..n], run[n];
      assert run == before + [e];
      StoredIsDecided(host, st, before);
      ServeStored(host, After(host, st, before), e);
      DecidedStep(st.Stored(), before, e);
    }
  }

  lemma DecidedStep(initial: seq<bv8>, run: seq<Event>, e: Event)
    requires ValidRun(run) && e.req.WellFormed()
    ensures Decided(initial, run + [e])
         == if Sets(e, Set) || (Sets(e, SetIfEmpty) && Decided(initial, run) == []) then e.req.Data()
            else Decided(initial, run)
  {
    var run' := run + [e];
    assert run'[..|run|] == run && run'[|run|] == e;
    if Sets(e, Set) {
      assert FirstFill(run', |run'|) == None;
    } else {
      assert LastSet(run') == LastSet(run);
      var last := LastSet(run);
      FirstFillAppend(run, e, if last.Some? then last.value + 1 else 0);
    }
  }

  /** Requests of hosts that the access lists refuse change nothing and get no answer. */
  lemma RefusedIsSilent(host: Endian, st: Store, e: Event)
    requires st.Valid() && e.req.WellFormed() && !e.Permitted()
    ensures Serve(host, st, e) == (st, Silent)
  {
  }

  /** A permitted READ after any run returns the decided string. */
  lemma ReadReturnsDecided(host: Endian, st: Store, run: seq<Event>, e: Event)
    requires st.Valid() && ValidRun(run) && e.req.WellFormed()
    requires e.req.Command() == Read && e.Permitted()
    ensures Serve(host, After(host, st, run), e).1 == Sent(0, Decided(st.Stored(), run))
  {
    StoredIsDecided(host, st, run);
  }

  /* ---- The exact match ---- */

  predicate Answered(host: Endian, st: Store, e: Event)
    requires st.Valid() && e.req.WellFormed()
  {
    Serve(host, st, e).1.Sent?
  }

  /** A permitted request for an exact match with strings of these lengths. */
  predicate MatchSetting(st: Store, e: Event, n: nat, len: nat)
  {
    && st.Valid() && e.req.WellFormed() && e.req.Command() == Match && e.Permitted()
    && e.req.cfgLen == n && st.len == len
  }

  /** A request for an exact match is well defined and answered exactly if the strings are equal. */
  ghost predicate MatchesExactly(host: Endian, n: nat, len: nat)
  {
    forall st, e {:trigger Answered(host, st, e)} :: MatchSetting(st, e, n, len) ==>
      Serve(host, st, e).1 != Undefined && (Answered(host, st, e) <==> e.req.Data() == st.Stored())
  }

  /** The raw comparison of the length field works exactly on big-endian hosts, for lengths that read the
      same in both byte orders, and where neither reading of the requested length is the stored one.
      So on a little-endian host a stored string of 3 bytes never matches itself. */
  lemma MatchesExactlyIff(host: Endian, n: uint16, len: nat)
    requires len <= CFG_MAX
    ensures MatchesExactly(host, n, len) <==> host == Big || Swap16(n) == n || (n != len && Swap16(n) != len)
  {
    var fine := host == Big || Swap16(n) == n || (n != len && Swap16(n) != len);
    if fine {
      forall st, e | MatchSetting(st, e, n, len)
        ensures Serve(host, st, e).1 != Undefined && (Answered(host, st, e) <==> e.req.Data() == st.Stored())
      {
        if HostView(host, n) == len {
          assert e.req.raw[..n] == e.req.Data();
        } else {
          assert |e.req.Data()| == n && |st.Stored()| == len;
        }
      }
    } else {
      var st := Store(Zeros(CFG_MAX), len);
      var e := Event(CfgRequest([0, 0, 0, 0, 0, 0], 1, n, Zeros(n + len)), None, None);
      assert MatchSetting(st, e, n, len);
      assert st.mem[..len] == e.req.raw[..len];
      if n == len {
        assert e.req.Data() == st.Stored();
        assert !Answered(host, st, e);
      } else {
        assert |e.req.Data()| != |st.Stored()|;
        assert Answered(host, st, e);
      }
    }
  }

  /* ---- The partial match ---- */

  predicate PartialSetting(st: Store, e: Event, n: nat, len: nat)
  {
    && st.Valid() && e.req.WellFormed() && e.req.Command() == MatchPartial && e.Permitted()
    && e.req.cfgLen == n && st.len == len
  }

  /** A request for a partial match is well defined and answered exactly if its string is a prefix of the
      stored one. */
  ghost predicate MatchesPrefix(host: Endian, n: nat, len: nat)
  {
    forall st, e {:trigger Answered(host, st, e)} :: PartialSetting(st, e, n, len) ==>
      Serve(host, st, e).1 != Undefined && (Answered(host, st, e) <==> e.req.Data() <= st.Stored())
  }

  /** The partial match works exactly for requests that are not longer than the stored string. */
  lemma MatchesPrefixIff(host: Endian, n: uint16, len: nat)
    requires len <= CFG_MAX
    ensures MatchesPrefix(host, n, len) <==> n <= len
  {
    if n <= len {
      forall st, e | PartialSetting(st, e, n, len)
        ensures Serve(host, st, e).1 != Undefined && (Answered(host, st, e) <==> e.req.Data() <= st.Stored())
      {
        assert st.mem[..n] == st.Stored()[..n];
        assert e.req.raw[..n] == e.req.Data();
      }
    } else {
      var st := Store(Zeros(CFG_MAX), len);
      var e := Event(CfgRequest([0, 0, 0, 0, 0, 0], 2, n, Zeros(n)), None, None);
      assert PartialSetting(st, e, n, len);
      assert |e.req.Data()| > |st.Stored()|;
      if n <= CFG_MAX {
        assert st.mem[..n] == e.req.raw[..n];
        assert Answered(host, st, e);
      } else {
        assert !Answered(host, st, e);
      }
    }
  }

  /** The bytes of an older, longer string still match: after SET of any string and SET of a prefix of
      it, a partial match for the old string is answered. */
  lemma StaleBytesMatch(host: Endian, st: Store, longer: Event, shorter: Event, e: Event)
    requires st.Valid() && longer.req.WellFormed() && shorter.req.WellFormed() && e.req.WellFormed()
    requires Sets(longer, Set) && Sets(shorter, Set) && shorter.req.Data() <= longer.req.Data()
    requires e.req.Command() == MatchPartial && e.Permitted() && e.req.Data() == longer.req.Data()
    ensures var st' := Serve(host, Serve(host, st, longer).0, shorter).0;
            st'.Stored() == shorter.req.Data() && Answered(host, st', e)
  {
    var m1 := Serve(host, st, longer).0;
    var m2 := Serve(host, m1, shorter).0;
    var d, c := longer.req.Data(), shorter.req.Data();
    AssignStored(st, d);
    AssignStored(m1, c);
    assert m1.mem[..|d|] == d;
    assert m2.mem[..|d|] == c + m1.mem[|c|..|d|];
    assert m1.mem[|c|..|d|] == d[|c|..];
    assert c + d[|c|..] == d;
    assert |d| == e.req.cfgLen;
  }
}
