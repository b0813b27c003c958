/** The recursive parser of the rcfg framework (rcfg/readconf.c): from a token list to a tree of
    assignments and blocks. Block ends are found with a brace counter. */
module RcfgParser {

  /** struct cfg: the `next` links of siblings are a sequence here. */
  datatype Cfg = Assign(lvalue: string, rvalue: string) | Block(name: string, body: seq<Cfg>)

  /** `Undefined`: the parser copied a token beyond the end of the token array. */
  datatype Parsed = Tree(forest: seq<Cfg>) | Undefined

  function First(t: string): char
  {
    if t == "" then '\0' else t[0]
  }

  /* ---- The parser as a function of its loop state ---- */

  datatype Scan = Scan(found: bool, j: nat, cbc: int)

  /** The inner loop, from token `j`: the first closing brace that takes the counter to zero. */
  function FindEnd(toks: seq<string>, j: nat, te: nat, cbc: int): (r: Scan)
    requires te <= |toks|
    ensures r.found ==> j <= r.j < te
    decreases te - j
  {
    if j >= te then Scan(false, j, cbc)
    else
      var c := First(toks[j]);
      var up := if c == '{' then cbc + 1 else cbc;
      if c == '}' then
        if up - 1 == 0 then Scan(true, j, 0) else FindEnd(toks, j + 1, te, up - 1)
      else FindEnd(toks, j + 1, te, up)
  }

  function Prepend(out: seq<Cfg>, p: Parsed): Parsed
  {
    match p
    case Tree(f) => Tree(out + f)
    case Undefined => Undefined
  }

  /** What the outer loop still adds when it stands at `i` with brace counter `cbc`. */
  function ParseFrom(toks: seq<string>, i: nat, te: nat, cbc: int): Parsed
    requires te <= |toks|
    decreases te - i
  {
    if i + 1 >= te then Tree([])
    else if First(toks[i + 1]) == '{' then
      var s := FindEnd(toks, i + 2, te, cbc + 1);
      if s.found then
        match ParseFrom(toks, i + 2, s.j, 0)
        case Undefined => Undefined
        case Tree(body) => Prepend([Block(toks[i], body)], ParseFrom(toks, s.j + 1, te, s.cbc))
      else ParseFrom(toks, i + 1, te, s.cbc)
    else if First(toks[i + 1]) == '=' then
      if i + 2 >= |toks| then Undefined
      else Prepend([Assign(toks[i], toks[i + 2])], ParseFrom(toks, i + 4, te, cbc))
    else ParseFrom(toks, i + 1, te, cbc)
  }

  /** recursiveparse */
  method RecursiveParse(toks: seq<string>, ts: nat, te: nat) returns (r: Parsed)
    requires te <= |toks|
    ensures r == ParseFrom(toks, ts, te, 0)
    decreases te - ts
  {
    var cbc, i := 0, ts;
    var out: seq<Cfg> := [];
    while i + 1 < te
      invariant ts <= i
      invariant Prepend(out, ParseFrom(toks, i, te, cbc)) == ParseFrom(toks, ts, te, 0)
      decreases te - i
    {
      var c := First(toks[i + 1]);
      if c == '{' {
        cbc := cbc + 1;
        var j := i + 2;
        var closed := false;
        ghost var scan := FindEnd(toks, j, te, cbc);
        while j < te && !closed
          invariant i + 2 <= j
          invariant if closed then scan == Scan(true, j, cbc) && j < te else scan == FindEnd(toks, j, te, cbc)
          decreases te - j, !closed
        {
          if First(toks[j]) == '{' {
            cbc := cbc + 1;
          }
          if First(toks[j]) == '}' {
            cbc := cbc - 1;
            if cbc == 0 {
              closed := true;
            }
          }
          if !closed {
            j := j + 1;
          }
        }
        if closed {
          var sub := RecursiveParse(toks, i + 2, j);
          if sub.Undefined? {
            return Undefined;
          }
          out := out + [Block(toks[i], sub.forest)];
          i := j;
        }
      } else if c == '=' {
        if i + 2 >= |toks| {
          return Undefined;
        }
        out := out + [Assign(toks[i], toks[i + 2])];
        i := i + 3;
      }
      i := i + 1;
    }
    r := Tree(out);
  }

  /* ---- Flattening, the inverse ---- */

  function Flatten(f: seq<Cfg>): seq<string>
  {
    if f == [] then []
    else
      (match f[0]
       case Assign(l, r) => [l, "=", r, ";"]
       case Block(n, body) => [n, "{"] + Flatten(body) + ["}"])
      + Flatten(f[1..])
  }

  predicate BraceFree(w: string)
  {
    First(w) != '{' && First(w) != '}'
  }

  /** No word of the forest starts with a brace. */
  predicate Plain(f: seq<Cfg>)
  {
    f == [] ||
    ((match f[0]
      case Assign(l, r) => BraceFree(l) && BraceFree(r)
      case Block(n, body) => BraceFree(n) && Plain(body))
     && Plain(f[1..]))
  }

  /** `toks` holds `part` at position `i`. */
  ghost predicate At(toks: seq<string>, i: nat, part: seq<string>)
  {
    i + |part| <= |toks| && forall k :: 0 <= k < |part| ==> toks[i + k] == part[k]
  }

  lemma AtSplit(toks: seq<string>, i: nat, a: seq<string>, b: seq<string>)
    requires At(toks, i, a + b)
    ensures At(toks, i, a) && At(toks, i + |a|, b)
  {
    forall k | 0 <= k < |a| ensures toks[i + k] == a[k] {
      assert (a + b)[k] == a[k];
    }
    forall k | 0 <= k < |b| ensures toks[i + |a| + k] == b[k] {
      assert (a + b)[|a| + k] == b[k];
    }
  }

  lemma FlattenAssign(f: seq<Cfg>)
    requires f != [] && f[0].Assign?
    ensures Flatten(f) == [f[0].lvalue, "=", f[0].rvalue, ";"] + Flatten(f[1..])
  {
  }

  lemma FlattenBlock(f: seq<Cfg>)
    requires f != [] && f[0].Block?
    ensures Flatten(f) == [f[0].name, "{"] + (Flatten(f[0].body) + (["}"] + Flatten(f[1..])))
  {
  }

  lemma AssignLayout(toks: seq<string>, i: nat, f: seq<Cfg>)
    requires f != [] && f[0].Assign? && At(toks, i, Flatten(f))
    ensures |Flatten(f)| == 4 + |Flatten(f[1..])|
    ensures toks[i] == f[0].lvalue && toks[i + 1] == "=" && toks[i + 2] == f[0].rvalue && toks[i + 3] == ";"
    ensures At(toks, i + 4, Flatten(f[1..]))
  {
    var s := [f[0].lvalue, "=", f[0].rvalue, ";"];
    FlattenAssign(f);
    AtSplit(toks, i, s, Flatten(f[1..]));
    assert toks[i + 0] == s[0] && toks[i + 1] == s[1] && toks[i + 2] == s[2] && toks[i + 3] == s[3];
  }

  lemma BlockAt(toks: seq<string>, i: nat, n: string, b: seq<string>, rest: seq<string>)
    requires At(toks, i, [n, "{"] + (b + (["}"] + rest)))
    ensures var k := i + 2 + |b|;
            && k < |toks| && toks[i] == n && toks[i + 1] == "{" && toks[k] == "}"
            && At(toks, i + 2, b) && At(toks, k + 1, rest)
  {
    var k := i + 2 + |b|;
    AtSplit(toks, i, [n, "{"], b + (["}"] + rest));
    AtSplit(toks, i + 2, b, ["}"] + rest);
    AtSplit(toks, k, ["}"], rest);
    assert toks[i + 0] == [n, "{"][0] && toks[i + 1] == [n, "{"][1] && toks[k + 0] == ["}"][0];
  }

  lemma BlockLayout(toks: seq<string>, i: nat, f: seq<Cfg>)
    requires f != [] && f[0].Block? && At(toks, i, Flatten(f))
    ensures var b, k := Flatten(f[0].body), i + 2 + |Flatten(f[0].body)|;
            && |Flatten(f)| == 3 + |b| + |Flatten(f[1..])| && k < |toks|
            && toks[i] == f[0].name && toks[i + 1] == "{" && toks[k] == "}"
            && At(toks, i + 2, b) && At(toks, k + 1, Flatten(f[1..]))
  {
    FlattenBlock(f);
    BlockAt(toks, i, f[0].name, Flatten(f[0].body), Flatten(f[1..]));
  }

  lemma ScanOver(toks: seq<string>, j: nat, te: nat, cbc: int)
    requires j < te <= |toks| && BraceFree(toks[j])
    ensures FindEnd(toks, j, te, cbc) == FindEnd(toks, j + 1, te, cbc)
  {
  }

  /** The counter scan passes over a flattened body at any depth of at least one, because no prefix
      of it closes more blocks than it opens. */
  lemma {:induction false} ScanPassesBody(toks: seq<string>, j: nat, te: nat, cbc: int, f: seq<Cfg>)
    requires Plain(f) && At(toks, j, Flatten(f)) && j + |Flatten(f)| <= te <= |toks| && cbc >= 1
    ensures FindEnd(toks, j, te, cbc) == FindEnd(toks, j + |Flatten(f)|, te, cbc)
    decreases f
  {
    if f != [] {
      if f[0].Assign? {
        AssignLayout(toks, j, f);
        ScanOver(toks, j, te, cbc);
        ScanOver(toks, j + 1, te, cbc);
        ScanOver(toks, j + 2, te, cbc);
        ScanOver(toks, j + 3, te, cbc);
        ScanPassesBody(toks, j + 4, te, cbc, f[1..]);
      } else {
        BlockLayout(toks, j, f);
        ScanOver(toks, j, te, cbc);
        ScanPassesBody(toks, j + 2, te, cbc + 1, f[0].body);
        ScanPassesBody(toks, j + 3 + |Flatten(f[0].body)|, te, cbc, f[1..]);
      }
    }
  }

  lemma ParseAssign(toks: seq<string>, i: nat, te: nat, rest: seq<Cfg>)
    requires i + 2 < te <= |toks| && toks[i + 1] == "=" && ParseFrom(toks, i + 4, te, 0) == Tree(rest)
    ensures ParseFrom(toks, i, te, 0) == Tree([Assign(toks[i], toks[i + 2])] + rest)
  {
  }

  lemma ParseBlock(toks: seq<string>, i: nat, k: nat, te: nat, body: seq<Cfg>, rest: seq<Cfg>)
    requires i + 1 < k < te <= |toks| && toks[i + 1] == "{" && FindEnd(toks, i + 2, te, 1) == Scan(true, k, 0)
    requires ParseFrom(toks, i + 2, k, 0) == Tree(body) && ParseFrom(toks, k + 1, te, 0) == Tree(rest)
    ensures ParseFrom(toks, i, te, 0) == Tree([Block(toks[i], body)] + rest)
  {
  }

  /** recursiveparse inverts flattening, wherever in the token list the flattened forest stands. */
  lemma {:induction false} ParseInvertsFlatten(toks: seq<string>, i: nat, te: nat, f: seq<Cfg>)
    requires Plain(f) && At(toks, i, Flatten(f)) && te == i + |Flatten(f)|
    ensures ParseFrom(toks, i, te, 0) == Tree(f)
    decreases f
  {
    if f != [] {
      if f[0].Assign? {
        AssignLayout(toks, i, f);
        ParseInvertsFlatten(toks, i + 4, te, f[1..]);
        ParseAssign(toks, i, te, f[1..]);
      } else {
        BlockLayout(toks, i, f);
        var k := i + 2 + |Flatten(f[0].body)|;
        ScanPassesBody(toks, i + 2, te, 1, f[0].body);
        ParseInvertsFlatten(toks, i + 2, k, f[0].body);
        ParseInvertsFlatten(toks, k + 1, te, f[1..]);
        ParseBlock(toks, i, k, te, f[0].body, f[1..]);
      }
      assert f == [f[0]] + f[1..];
    }
  }

  /** So no two forests have the same token list. */
  lemma FlattenInjective(f: seq<Cfg>, g: seq<Cfg>)
    requires Plain(f) && Plain(g) && Flatten(f) == Flatten(g)
    ensures f == g
  {
    var toks := Flatten(f);
    ParseInvertsFlatten(toks, 0, |toks|, f);
    ParseInvertsFlatten(toks, 0, |toks|, g);
  }

  /* ---- Validation of the token list ---- */

  function Occurrences(toks: seq<string>, t: string): nat
  {
    if toks == [] then 0
    else (if toks[|toks| - 1] == t then 1 else 0) + Occurrences(toks[..|toks| - 1], t)
  }

  predicate Balanced(toks: seq<string>)
  {
    Occurrences(toks, "{") == Occurrences(toks, "}")
  }

  /** countbraces */
  method CountBraces(toks: seq<string>) returns (r: int)
    ensures r == if Balanced(toks) then 0 else -1
  {
    var left, right := 0, 0;
    for i := 0 to |toks|
      invariant right == Occurrences(toks[..i], "{") && left == Occurrences(toks[..i], "}")
    {
      assert toks[..i + 1][..i] == toks[..i];
      if toks[i] == "{" {
        right := right + 1;
      }
      if toks[i] == "}" {
        left := left + 1;
      }
    }
    assert toks[..|toks|] == toks;
    if left < right {
      return -1;
    }
    if left > right {
      return -1;
    }
    return 0;
  }

  /** A token has to be a keyword, unless the token before it starts with '='. */
  predicate Allowed(toks: seq<string>, i: nat, keywords: set<string>)
    requires i < |toks|
  {
    toks[i] in keywords || (i > 0 && First(toks[i - 1]) == '=')
  }

  predicate KeywordsOnly(toks: seq<string>, keywords: set<string>)
  {
    forall i :: 0 <= i < |toks| ==> Allowed(toks, i, keywords)
  }

  /** checktokenlist; `keywords` is the table of rcfg/rcfgkw.h. */
  method CheckTokenList(toks: seq<string>, keywords: set<string>) returns (r: int)
    ensures r == if KeywordsOnly(toks, keywords) then 0 else -1
  {
    for i := 0 to |toks|
      invariant forall k :: 0 <= k < i ==> Allowed(toks, k, keywords)
    {
      if toks[i] !in keywords {
        if !(i > 0 && First(toks[i - 1]) == '=') {
          assert !Allowed(toks, i, keywords);
          return -1;
        }
      }
    }
    return 0;
  }

  /* ---- Flattened forests pass validation ---- */

  lemma {:induction false} OccurrencesAppend(a: seq<string>, b: seq<string>, t: string)
    ensures Occurrences(a + b, t) == Occurrences(a, t) + Occurrences(b, t)
  {
    if b == [] {
      assert a + b == a;
    } else {
      assert (a + b)[..|a + b| - 1] == a + b[..|b| - 1];
      OccurrencesAppend(a, b[..|b| - 1], t);
    }
  }

  lemma {:induction false} FlattenBalanced(f: seq<Cfg>)
    requires Plain(f)
    ensures Balanced(Flatten(f))
    decreases f
  {
    if f != [] {
      FlattenBalanced(f[1..]);
      if f[0].Block? {
        FlattenBalanced(f[0].body);
      }
      forall t | t == "{" || t == "}"
        ensures Occurrences(Flatten(f), t) == Occurrences(Flatten(f[1..]), t)
             + if f[0].Block? then 1 + Occurrences(Flatten(f[0].body), t) else 0
      {
        ItemOccurrences(f, t);
      }
    }
  }

  lemma {:induction false} OccursNever(a: seq<string>, t: string)
    requires forall i :: 0 <= i < |a| ==> a[i] != t
    ensures Occurrences(a, t) == 0
  {
    if a != [] {
      OccursNever(a[..|a| - 1], t);
    }
  }

  lemma ItemOccurrences(f: seq<Cfg>, t: string)
    requires Plain(f) && f != [] && (t == "{" || t == "}")
    ensures Occurrences(Flatten(f), t) == Occurrences(Flatten(f[1..]), t)
         + if f[0].Block? then 1 + Occurrences(Flatten(f[0].body), t) else 0
  {
    var rest := Flatten(f[1..]);
    if f[0].Assign? {
      FlattenAssign(f);
      var s := [f[0].lvalue, "=", f[0].rvalue, ";"];
      OccurrencesAppend(s, rest, t);
      assert First(t) == '{' || First(t) == '}';
      OccursNever(s, t);
    } else {
      FlattenBlock(f);
      var b := Flatten(f[0].body);
      OccurrencesAppend([f[0].name, "{"], b + (["}"] + rest), t);
      OccurrencesAppend(b, ["}"] + rest, t);
      OccurrencesAppend(["}"], rest, t);
      assert [f[0].name, "{"][..1] == [f[0].name] && [f[0].name, "{"][..1][..0] == [];
      assert ["}"][..0] == [];
    }
  }

  /** Every name on the left of an assignment or in front of a block is a keyword. */
  predicate NamesIn(f: seq<Cfg>, keywords: set<string>)
  {
    f == [] ||
    ((match f[0]
      case Assign(l, _) => l in keywords
      case Block(n, body) => n in keywords && NamesIn(body, keywords))
     && NamesIn(f[1..], keywords))
  }

  lemma KeywordsSplit(a: seq<string>, b: seq<string>, keywords: set<string>)
    requires a != [] ==> First(a[|a| - 1]) != '='
    ensures KeywordsOnly(a + b, keywords) <==> KeywordsOnly(a, keywords) && KeywordsOnly(b, keywords)
  {
    forall i | 0 <= i < |a| ensures Allowed(a + b, i, keywords) <==> Allowed(a, i, keywords) {
    }
    forall i | 0 <= i < |b| ensures Allowed(a + b, |a| + i, keywords) <==> Allowed(b, i, keywords) {
    }
    if KeywordsOnly(a, keywords) && KeywordsOnly(b, keywords) {
      forall i | 0 <= i < |a + b| ensures Allowed(a + b, i, keywords) {
        assert i < |a| ==> Allowed(a, i, keywords);
        assert i >= |a| ==> Allowed(b, i - |a|, keywords);
      }
    }
    if KeywordsOnly(a + b, keywords) {
      forall i | 0 <= i < |a| ensures Allowed(a, i, keywords) {
        assert Allowed(a + b, i, keywords);
      }
      forall i | 0 <= i < |b| ensures Allowed(b, i, keywords) {
        assert Allowed(a + b, |a| + i, keywords);
      }
    }
  }

  lemma {:induction false} FlattenLast(f: seq<Cfg>)
    ensures Flatten(f) != [] ==> First(Flatten(f)[|Flatten(f)| - 1]) != '='
    decreases f
  {
    if f != [] {
      FlattenLast(f[1..]);
      if f[0].Assign? {
        FlattenAssign(f);
      } else {
        FlattenBlock(f);
      }
    }
  }

  /** checktokenlist accepts a flattened forest exactly if its names are keywords. */
  lemma {:induction false} FlattenKeywords(f: seq<Cfg>, keywords: set<string>)
    requires {"=", "{", "}", ";"} <= keywords
    ensures KeywordsOnly(Flatten(f), keywords) <==> NamesIn(f, keywords)
    decreases f
  {
    if f != [] {
      var rest := Flatten(f[1..]);
      FlattenKeywords(f[1..], keywords);
      if f[0].Assign? {
        var s := [f[0].lvalue, "=", f[0].rvalue, ";"];
        FlattenAssign(f);
        KeywordsSplit(s, rest, keywords);
        AssignKeywords(f[0].lvalue, f[0].rvalue, keywords);
      } else {
        var n, b := f[0].name, Flatten(f[0].body);
        FlattenBlock(f);
        FlattenKeywords(f[0].body, keywords);
        FlattenLast(f[0].body);
        KeywordsSplit([n, "{"], b + (["}"] + rest), keywords);
        KeywordsSplit(b, ["}"] + rest, keywords);
        KeywordsSplit(["}"], rest, keywords);
        BraceKeywords(n, keywords);
      }
    }
  }

  lemma AssignKeywords(l: string, r: string, keywords: set<string>)
    requires {"=", "{", "}", ";"} <= keywords
    ensures KeywordsOnly([l, "=", r, ";"], keywords) <==> l in keywords
  {
    var s := [l, "=", r, ";"];
    assert Allowed(s, 0, keywords) <==> l in keywords;
    assert Allowed(s, 1, keywords) && Allowed(s, 2, keywords) && Allowed(s, 3, keywords);
  }

  lemma BraceKeywords(n: string, keywords: set<string>)
    requires {"=", "{", "}", ";"} <= keywords
    ensures KeywordsOnly([n, "{"], keywords) <==> n in keywords
    ensures KeywordsOnly(["}"], keywords)
  {
    assert Allowed([n, "{"], 0, keywords) <==> n in keywords;
    assert Allowed([n, "{"], 1, keywords) && Allowed(["}"], 0, keywords);
  }
}
