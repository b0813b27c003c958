/** Access lists: compiled from the assignments of an access-list block (parseACL in parseconf.c) to a
    first-match list, and consulted with aclmatch (acl.c). */
module AccessList {
  import opened Common

  type Mac = m: seq<bv8> | |m| == 6 witness [0, 0, 0, 0, 0, 0]

  const ACL_ACCEPT: nat := 1
  const ACL_REJECT: nat := 2
  const ACL_ERROR: nat := 255

  datatype Row = Row(rule: nat, mac: Mac)

  /** struct aclhdr, without name, log target and reference count. */
  datatype Acl = Acl(defaultpolicy: nat, rows: seq<Row>)

  /** The result of aclmatch: the rule of the first row with that address, or the default policy. */
  function Match(acl: Acl, h: Mac): nat
    decreases |acl.rows|
  {
    if acl.rows == [] then acl.defaultpolicy
    else if acl.rows[0].mac == h then acl.rows[0].rule
    else Match(Acl(acl.defaultpolicy, acl.rows[1..]), h)
  }

  /** aclmatch */
  method AclMatch(acl: Acl, h: Mac) returns (rule: nat)
    ensures rule == Match(acl, h)
  {
    var i := 0;
    while i < |acl.rows|
      invariant i <= |acl.rows|
      invariant Match(Acl(acl.defaultpolicy, acl.rows[i..]), h) == Match(acl, h)
    {
      if acl.rows[i].mac == h {
        return acl.rows[i].rule;
      }
      assert acl.rows[i..][1..] == acl.rows[i + 1..];
      i := i + 1;
    }
    return acl.defaultpolicy;
  }

  /** The first row for the address accepts it, or there is none and the default policy does. */
  ghost predicate Lets(acl: Acl, h: Mac)
  {
    || (exists i :: 0 <= i < |acl.rows| && acl.rows[i] == Row(1, h) && forall k :: 0 <= k < i ==> acl.rows[k].mac != h)
    || (acl.defaultpolicy == 1 && forall i :: 0 <= i < |acl.rows| ==> acl.rows[i].mac != h)
  }

  lemma {:induction false} MatchLets(acl: Acl, h: Mac)
    ensures Match(acl, h) == ACL_ACCEPT <==> Lets(acl, h)
    decreases |acl.rows|
  {
    if acl.rows != [] && acl.rows[0].mac != h {
      var rest := Acl(acl.defaultpolicy, acl.rows[1..]);
      MatchLets(rest, h);
      if i :| 0 <= i < |rest.rows| && rest.rows[i] == Row(1, h) && forall k :: 0 <= k < i ==> rest.rows[k].mac != h {
        assert acl.rows[i + 1] == Row(1, h);
        assert forall k :: 0 <= k < i + 1 ==> k == 0 || acl.rows[k] == rest.rows[k - 1];
      }
      if i :| 0 <= i < |acl.rows| && acl.rows[i] == Row(1, h) && forall k :: 0 <= k < i ==> acl.rows[k].mac != h {
        assert rest.rows[i - 1] == Row(1, h);
      }
    }
  }

  /** An access check of the request engine: without a list everything is permitted. */
  predicate Permits(acl: Option<Acl>, h: Mac)
  {
    acl.Some? ==> Match(acl.value, h) == ACL_ACCEPT
  }

  /** An assignment of the configuration tree. */
  datatype Line = Line(lvalue: string, rvalue: string)

  /** The C library as the compiler uses it: `mac` is the conversion of aclmac, `strcmp` may return any
      value with the right sign. */
  datatype Library = Library(mac: string -> Option<Mac>, strcmp: (string, string) -> int)

  ghost predicate Lawful(lib: Library)
  {
    forall a, b :: lib.strcmp(a, b) == 0 <==> a == b
  }

  /** aclpolicy, which compares with "reject" for the result 1 and not 0. */
  function AclPolicy(lib: Library, p: string): nat
  {
    if lib.strcmp(p, "accept") == 0 then ACL_ACCEPT
    else if lib.strcmp(p, "reject") == 1 then ACL_REJECT
    else ACL_ERROR
  }

  /** "reject" is encoded as an error, but whatever the encoding, only "accept" is accepted. */
  lemma OnlyAcceptAccepts(lib: Library, p: string)
    requires Lawful(lib)
    ensures AclPolicy(lib, p) == ACL_ACCEPT <==> p == "accept"
    ensures AclPolicy(lib, "reject") == ACL_ERROR
  {
  }

  /* ---- Compilation ---- */

  function Initial(w: string): char
  {
    if w == "" then '\0' else w[0]
  }

  /** Every word that starts with 'a' or 'r' makes a row: the test that should exclude the others is
      always true. */
  predicate MakesRow(l: Line)
  {
    Initial(l.lvalue) == 'a' || Initial(l.lvalue) == 'r'
  }

  /** One assignment; none is the error return. */
  function Step(lib: Library, acl: Acl, l: Line): Option<Acl>
  {
    if MakesRow(l) then
      match lib.mac(l.rvalue)
      case None => None
      case Some(m) => Some(acl.(rows := acl.rows + [Row(AclPolicy(lib, l.lvalue), m)]))
    else if l.lvalue == "policy" then Some(acl.(defaultpolicy := AclPolicy(lib, l.rvalue)))
    else if l.lvalue == "name" || l.lvalue == "log" then Some(acl)
    else None
  }

  function Compile(lib: Library, c: seq<Line>): Option<Acl>
  {
    if c == [] then Some(Acl(ACL_ERROR, []))
    else
      match Compile(lib, c[..|c| - 1])
      case None => None
      case Some(acl) => Step(lib, acl, c[|c| - 1])
  }

  lemma {:induction false} CompileFails(lib: Library, c: seq<Line>, n: nat)
    requires n <= |c| && Compile(lib, c[..n]).None?
    ensures Compile(lib, c).None?
    decreases |c| - n
  {
    if n == |c| {
      assert c[..n] == c;
    } else {
      assert c[..n + 1][..n] == c[..n];
      CompileFails(lib, c, n + 1);
    }
  }

  lemma CompileNext(lib: Library, c: seq<Line>, i: nat)
    requires i < |c| && Compile(lib, c[..i]).Some?
    ensures Compile(lib, c[..i + 1]) == Step(lib, Compile(lib, c[..i]).value, c[i])
  {
    assert c[..i + 1][..i] == c[..i];
  }

  /** parseACL, for the rows and the policy. */
  method ParseACL(lib: Library, c: seq<Line>) returns (r: Option<Acl>)
    requires Lawful(lib)
    ensures r == Compile(lib, c)
  {
    var policy, rows := ACL_ERROR, [];
    var i := 0;
    while i < |c|
      invariant i <= |c|
      invariant Compile(lib, c[..i]) == Some(Acl(policy, rows))
    {
      var l := c[i];
      CompileNext(lib, c, i);
      var initial := Initial(l.lvalue);
      if initial == 'n' && lib.strcmp(l.lvalue, "name") == 0 {
      } else if initial == 'p' && lib.strcmp(l.lvalue, "policy") == 0 {
        policy := AclPolicy(lib, l.rvalue);
      } else if initial == 'l' && lib.strcmp(l.lvalue, "log") == 0 {
      } else if (initial == 'a' || initial == 'r')
                && (lib.strcmp(l.lvalue, "accept") != 0 || lib.strcmp(l.lvalue, "reject") != 0) {
        var m := lib.mac(l.rvalue);
        if m.None? {
          CompileFails(lib, c, i + 1);
          return None;
        }
        rows := rows + [Row(AclPolicy(lib, l.lvalue), m.value)];
      } else {
        CompileFails(lib, c, i + 1);
        return None;
      }
      i := i + 1;
    }
    assert c[..i] == c;
    return Some(Acl(policy, rows));
  }

  /* ---- What an access-list block means ---- */

  /** A line whose keyword starts with 'a' or 'r' names the address that it gives. */
  predicate Names(lib: Library, l: Line, h: Mac)
  {
    l.lvalue != "" && (l.lvalue[0] == 'a' || l.lvalue[0] == 'r') && lib.mac(l.rvalue) == Some(h)
  }

  /** The first row that names `h`. */
  function FirstNaming(lib: Library, c: seq<Line>, h: Mac): (r: Option<nat>)
    ensures r.Some? ==> r.value < |c| && Names(lib, c[r.value], h)
                        && forall i :: 0 <= i < r.value ==> !Names(lib, c[i], h)
    ensures r.None? ==> forall i :: 0 <= i < |c| ==> !Names(lib, c[i], h)
  {
    if c == [] then None
    else
      var n := |c| - 1;
      match FirstNaming(lib, c[..n], h)
      case Some(i) => Some(i)
      case None => if Names(lib, c[n], h) then Some(n) else None
  }

  /** The last policy assignment. */
  function LastPolicy(c: seq<Line>): (r: Option<nat>)
    ensures r.Some? ==> r.value < |c| && c[r.value].lvalue == "policy"
                        && forall i :: r.value < i < |c| ==> c[i].lvalue != "policy"
    ensures r.None? ==> forall i :: 0 <= i < |c| ==> c[i].lvalue != "policy"
  {
    if c == [] then None
    else if c[|c| - 1].lvalue == "policy" then Some(|c| - 1)
    else LastPolicy(c[..|c| - 1])
  }

  /** Accepted: by the first row naming the address, or, if there is none, by the last policy. */
  predicate Means(lib: Library, c: seq<Line>, h: Mac)
  {
    match FirstNaming(lib, c, h)
    case Some(i) => c[i].lvalue == "accept"
    case None =>
      match LastPolicy(c)
      case Some(j) => c[j].rvalue == "accept"
      case None => false
  }

  lemma {:induction false} MatchAppend(policy: nat, rows: seq<Row>, row: Row, h: Mac)
    ensures Match(Acl(policy, rows + [row]), h)
         == if exists i :: 0 <= i < |rows| && rows[i].mac == h then Match(Acl(policy, rows), h)
            else if row.mac == h then row.rule else policy
  {
    if rows == [] {
      assert rows + [row] == [row];
    } else if rows[0].mac == h {
      assert (rows + [row])[0] == rows[0];
    } else {
      assert (rows + [row])[0] == rows[0] && (rows + [row])[1..] == rows[1..] + [row];
      MatchAppend(policy, rows[1..], row, h);
      if i :| 0 <= i < |rows| && rows[i].mac == h {
        assert rows[1..][i - 1].mac == h;
      }
      if i :| 0 <= i < |rows[1..]| && rows[1..][i].mac == h {
        assert rows[i + 1].mac == h;
      }
    }
  }

  lemma {:induction false} MatchDefault(policy: nat, rows: seq<Row>, h: Mac)
    ensures (forall i :: 0 <= i < |rows| ==> rows[i].mac != h) ==> Match(Acl(policy, rows), h) == policy
    ensures (exists i :: 0 <= i < |rows| && rows[i].mac == h) ==>
              forall p :: Match(Acl(p, rows), h) == Match(Acl(policy, rows), h)
  {
    if rows != [] && rows[0].mac != h {
      MatchDefault(policy, rows[1..], h);
      if i :| 0 <= i < |rows| && rows[i].mac == h {
        assert rows[1..][i - 1].mac == h;
      }
    }
  }

  /** What the compiled list says about an address: the rule of its first row, or the last policy. */
  function Verdict(lib: Library, c: seq<Line>, h: Mac): nat
  {
    match FirstNaming(lib, c, h)
    case Some(i) => AclPolicy(lib, c[i].lvalue)
    case None =>
      match LastPolicy(c)
      case Some(j) => AclPolicy(lib, c[j].rvalue)
      case None => ACL_ERROR
  }

  lemma NamesRow(lib: Library, l: Line, h: Mac)
    ensures Names(lib, l, h) <==> MakesRow(l) && lib.mac(l.rvalue) == Some(h)
  {
  }

  lemma {:induction false} CompiledVerdict(lib: Library, c: seq<Line>, acl: Acl, h: Mac)
    requires Compile(lib, c) == Some(acl)
    ensures Match(acl, h) == Verdict(lib, c, h)
    ensures (exists i :: 0 <= i < |acl.rows| && acl.rows[i].mac == h) <==> FirstNaming(lib, c, h).Some?
    ensures acl.defaultpolicy == match LastPolicy(c) case Some(j) => AclPolicy(lib, c[j].rvalue) case None => ACL_ERROR
  {
    if c != [] {
      var n := |c| - 1;
      var before := Compile(lib, c[..n]).value;
      CompiledVerdict(lib, c[..n], before, h);
      NamesRow(lib, c[n], h);
      if MakesRow(c[n]) {
        var row := acl.rows[|acl.rows| - 1];
        MatchAppend(before.defaultpolicy, before.rows, row, h);
        assert forall i :: 0 <= i < |before.rows| ==> acl.rows[i] == before.rows[i];
      } else {
        MatchDefault(before.defaultpolicy, before.rows, h);
        MatchDefault(acl.defaultpolicy, acl.rows, h);
      }
    }
  }

  /** Compilation preserves meaning: for every block that compiles and every address. */
  lemma CompilePreservesMeaning(lib: Library, c: seq<Line>, acl: Acl, h: Mac)
    requires Lawful(lib) && Compile(lib, c) == Some(acl)
    ensures Match(acl, h) == ACL_ACCEPT <==> Means(lib, c, h)
  {
    CompiledVerdict(lib, c, acl, h);
  }

  predicate LineOK(lib: Library, l: Line)
  {
    if l.lvalue != "" && l.lvalue[0] in {'a', 'r'} then lib.mac(l.rvalue).Some?
    else l.lvalue == "policy" || l.lvalue == "name" || l.lvalue == "log"
  }

  /** A block compiles exactly if each of its lines does: an unknown keyword or a malformed address
      anywhere rejects the whole block. */
  lemma {:induction false} CompilesIff(lib: Library, c: seq<Line>)
    ensures Compile(lib, c).Some? <==> forall i :: 0 <= i < |c| ==> LineOK(lib, c[i])
  {
    if c != [] {
      CompilesIff(lib, c[..|c| - 1]);
    }
  }
}
