/** Which files are read at all: for every sequence of tokens, not only for those of a tree. */
module RcfgRejects {
  import opened Common
  import opened RcfgParser
  import opened RcfgLexer
  import opened RcfgRoundTrip
  import opened RcfgWords

  /* ---- The checks ---- */

  lemma {:induction false} OccurrencesCount(toks: seq<string>, t: string)
    ensures Occurrences(toks, t) == multiset(toks)[t]
  {
    if toks == [] {
    } else {
      var n := |toks| - 1;
      assert toks == toks[..n] + [toks[n]];
      OccurrencesCount(toks[..n], t);
    }
  }

  /** Each token is a keyword or comes after one that starts with an equals sign. */
  ghost predicate Spelled(toks: seq<string>, keywords: set<string>)
  {
    forall i :: 0 <= i < |toks| ==> toks[i] in keywords || (i > 0 && toks[i - 1] != "" && toks[i - 1][0] == '=')
  }

  lemma SpelledIsChecked(toks: seq<string>, keywords: set<string>)
    ensures KeywordsOnly(toks, keywords) <==> Spelled(toks, keywords)
  {
    if KeywordsOnly(toks, keywords) {
      forall i | 0 <= i < |toks|
        ensures toks[i] in keywords || (i > 0 && toks[i - 1] != "" && toks[i - 1][0] == '=')
      {
        assert Allowed(toks, i, keywords);
      }
    }
    if Spelled(toks, keywords) {
      forall i | 0 <= i < |toks| ensures Allowed(toks, i, keywords) {
        assert toks[i] in keywords || (i > 0 && toks[i - 1] != "" && toks[i - 1][0] == '=');
      }
    }
  }

  /** A layout of any tokens is read if and only if there is a token, as many blocks are closed as opened,
      all names are keywords and the values pass their tables; otherwise the file is rejected. */
  lemma ReadIff(items: seq<Item>, filename: string, tables: Tables)
    requires LayoutOK(items) && ShortLines(RenderAll(items))
    ensures var toks := TokensOf(items);
            Config(filename, RenderAll(items), tables).Some?
            <==> toks != [] && multiset(toks)["{"] == multiset(toks)["}"] && Spelled(toks, tables.keywords)
                 && tables.values(toks)
  {
    var toks := TokensOf(items);
    LexTextIsLexFrom(RenderAll(items), false, false);
    LexInvertsLayout(items);
    OccurrencesCount(toks, "{");
    OccurrencesCount(toks, "}");
    SpelledIsChecked(toks, tables.keywords);
  }

  /* ---- What follows a layout ---- */

  /** A layout in front of a text. */
  predicate LayoutBefore(items: seq<Item>, rest: string)
  {
    items == [] || (ItemOK(items[0], RenderAll(items[1..]) + rest) && LayoutBefore(items[1..], rest))
  }

  lemma {:induction false} LexBefore(items: seq<Item>, rest: string)
    requires LayoutBefore(items, rest)
    ensures LexFrom(RenderAll(items) + rest, false, false) == Continue(TokensOf(items), LexFrom(rest, false, false))
  {
    if items == [] {
      assert RenderAll(items) + rest == rest;
      ContinueNone(LexFrom(rest, false, false));
    } else {
      var x, more := Render(items[0]), RenderAll(items[1..]);
      var first := if items[0].Token? then [items[0].text] else [];
      LexBefore(items[1..], rest);
      ItemLexed(items[0], more + rest);
      Associate(x, more, rest);
      ContinueTwice(first, TokensOf(items[1..]), LexFrom(rest, false, false));
    }
  }

  /** No comment ends within `u`. */
  predicate NeverEnds(u: string)
  {
    forall i :: 0 <= i < |u| ==> u[i] != '\0' && !(u[i] == '*' && CharAt(u, i + 1) == '/')
  }

  lemma {:induction false} OpenLines(u: string, q: bool)
    requires NeverEnds(u)
    ensures LexFrom(u, true, q) == Lexed([], true, q)
    decreases |u|
  {
    if u == "" {
    } else if OneLine(u) {
      LinePrefix(u, "");
      assert u + "" == u && LineOf("") == "" && AfterLine("") == "";
      LexFromLine(u, true, q);
      CommentInnerLine(u, q);
    } else {
      var n := FirstNewline(u);
      var x, more := u[..n], u[n + 1..];
      assert u == x + ("\n" + more);
      forall i | 0 <= i < |x| ensures x[i] != '\0' && !(x[i] == '*' && CharAt(x, i + 1) == '/') {
        assert x[i] == u[i] && (i + 1 < |x| ==> CharAt(x, i + 1) == CharAt(u, i + 1));
      }
      forall i | 0 <= i < |more| ensures more[i] != '\0' && !(more[i] == '*' && CharAt(more, i + 1) == '/') {
        assert more[i] == u[n + 1 + i] && CharAt(more, i + 1) == CharAt(u, n + 1 + i + 1);
      }
      CommentNextLine(x, more, q);
      OpenLines(more, q);
    }
  }

  lemma OpenText(c: string)
    requires NeverEnds("/*" + c)
    ensures LexFrom("/*" + c, false, false) == Lexed([], true, false)
  {
    var u := "/*" + c;
    LinePrefix("/*", c);
    var l := LineOf(u);
    assert l[0] == '/' && l[1] == '*';
    LexComment(l, false, false);
    LexComment(l, true, false);
    LexFromLine(u, false, false);
    LexFromLine(u, true, false);
    OpenLines(u, false);
  }

  /** A comment that is not closed makes the file be rejected, whatever comes before it and however many
      lines it goes on for. */
  lemma OpenCommentRejected(items: seq<Item>, c: string, filename: string, tables: Tables)
    requires NeverEnds("/*" + c) && LayoutBefore(items, "/*" + c)
    requires ShortLines(RenderAll(items) + ("/*" + c))
    ensures Config(filename, RenderAll(items) + ("/*" + c), tables) == None
  {
    LexTextIsLexFrom(RenderAll(items) + ("/*" + c), false, false);
    LexBefore(items, "/*" + c);
    OpenText(c);
  }

  /** So does a word that the lexer gives up on, whatever comes before or after it. */
  lemma BadWordRejected(items: seq<Item>, rest: string, filename: string, tables: Tables)
    requires LayoutBefore(items, rest) && ShortLines(RenderAll(items) + rest)
    requires rest != "" && !Stops(rest[0]) && rest[0] != ' ' && !OpensComment(LineOf(rest))
    requires LineOf(rest) != "" && HeadToken(LineOf(rest)) == None
    ensures Config(filename, RenderAll(items) + rest, tables) == None
  {
    LexTextIsLexFrom(RenderAll(items) + rest, false, false);
    LexBefore(items, rest);
    LineOfFirst(rest);
    HeadLexed(LineOf(rest));
    LexFromLine(rest, false, false);
  }

  /* ---- Tokens that belong to nothing ---- */

  lemma PrependTwice(a: seq<Cfg>, b: seq<Cfg>, p: Parsed)
    ensures Prepend(a, Prepend(b, p)) == Prepend(a + b, p)
  {
    if p.Tree? {
      assert a + (b + p.forest) == a + b + p.forest;
    }
  }

  /** The first statement. */
  lemma ParseOne(toks: seq<string>, i: nat, te: nat, f: seq<Cfg>) returns (k: nat)
    requires Plain(f) && f != [] && At(toks, i, Flatten(f)) && i + |Flatten(f)| <= te <= |toks|
    ensures k <= |toks| && k + |Flatten(f[1..])| == i + |Flatten(f)| && At(toks, k, Flatten(f[1..]))
    ensures ParseFrom(toks, i, te, 0) == Prepend([f[0]], ParseFrom(toks, k, te, 0))
  {
    if f[0].Assign? {
      AssignLayout(toks, i, f);
      k := i + 4;
    } else {
      BlockLayout(toks, i, f);
      var j := i + 2 + |Flatten(f[0].body)|;
      ScanPassesBody(toks, i + 2, te, 1, f[0].body);
      ParseInvertsFlatten(toks, i + 2, j, f[0].body);
      k := j + 1;
    }
  }

  /** The parser reads a flattened forest in front of other tokens, and goes on behind it. */
  lemma {:induction false} ParseInFront(toks: seq<string>, i: nat, te: nat, f: seq<Cfg>)
    requires Plain(f) && At(toks, i, Flatten(f)) && i + |Flatten(f)| <= te <= |toks|
    ensures ParseFrom(toks, i, te, 0) == Prepend(f, ParseFrom(toks, i + |Flatten(f)|, te, 0))
    decreases f
  {
    var end := ParseFrom(toks, i + |Flatten(f)|, te, 0);
    if f == [] {
      assert end.Tree? ==> [] + end.forest == end.forest;
    } else {
      var k := ParseOne(toks, i, te, f);
      ParseInFront(toks, k, te, f[1..]);
      PrependTwice([f[0]], f[1..], end);
      assert f == [f[0]] + f[1..];
    }
  }

  /** The name that a forest starts with. */
  function FirstName(g: seq<Cfg>): string
    requires g != []
  {
    match g[0]
    case Assign(l, _) => l
    case Block(n, _) => n
  }

  lemma FirstNameAt(toks: seq<string>, n: nat, g: seq<Cfg>)
    requires g != [] && At(toks, n, Flatten(g))
    ensures n < |toks| && toks[n] == FirstName(g)
  {
    if g[0].Assign? {
      AssignLayout(toks, n, g);
    } else {
      BlockLayout(toks, n, g);
    }
  }

  /** The step over a token that belongs to nothing. */
  lemma StrayStep(toks: seq<string>, n: nat, g: seq<Cfg>)
    requires Plain(g) && n < |toks| == n + 1 + |Flatten(g)| && At(toks, n + 1, Flatten(g))
    requires g != [] ==> First(FirstName(g)) != '='
    ensures ParseFrom(toks, n, |toks|, 0) == Tree(g)
  {
    ParseInvertsFlatten(toks, n + 1, |toks|, g);
    if g != [] {
      FirstNameAt(toks, n + 1, g);
      PlainName(g);
    }
  }

  lemma PlainName(g: seq<Cfg>)
    requires Plain(g) && g != []
    ensures BraceFree(FirstName(g))
  {
  }

  /** A token between two statements that belongs to neither, such as a semicolon after a block, is skipped. */
  lemma StraySkipped(toks: seq<string>, f: seq<Cfg>, x: string, g: seq<Cfg>)
    requires Plain(f) && Plain(g) && BraceFree(x) && First(x) != '='
    requires g != [] ==> First(FirstName(g)) != '='
    requires toks == Flatten(f) + ([x] + Flatten(g))
    ensures ParseFrom(toks, 0, |toks|, 0) == Tree(f + g)
  {
    AtSplit(toks, 0, Flatten(f), [x] + Flatten(g));
    AtSplit(toks, |Flatten(f)|, [x], Flatten(g));
    StrayRead(toks, f, g);
  }

  lemma StrayRead(toks: seq<string>, f: seq<Cfg>, g: seq<Cfg>)
    requires Plain(f) && Plain(g) && (g != [] ==> First(FirstName(g)) != '=')
    requires At(toks, 0, Flatten(f)) && At(toks, |Flatten(f)| + 1, Flatten(g))
    requires |toks| == |Flatten(f)| + 1 + |Flatten(g)|
    ensures ParseFrom(toks, 0, |toks|, 0) == Tree(f + g)
  {
    StrayStep(toks, |Flatten(f)|, g);
    ParseInFront(toks, 0, |toks|, f);
    Joined(toks, |Flatten(f)|, f, g);
  }

  lemma Joined(toks: seq<string>, n: nat, f: seq<Cfg>, g: seq<Cfg>)
    requires ParseFrom(toks, n, |toks|, 0) == Tree(g)
    ensures Prepend(f, ParseFrom(toks, n, |toks|, 0)) == Tree(f + g)
  {
  }

  /* ---- Braces in the wrong order ---- */

  predicate Flat(g: seq<Cfg>)
  {
    forall k :: 0 <= k < |g| ==> g[k].Assign?
  }

  lemma {:induction false} ScanPassesFlat(toks: seq<string>, j: nat, g: seq<Cfg>, cbc: int)
    requires Plain(g) && Flat(g) && At(toks, j, Flatten(g)) && j + |Flatten(g)| == |toks|
    ensures FindEnd(toks, j, |toks|, cbc) == Scan(false, |toks|, cbc)
    decreases g
  {
    if g == [] {
    } else {
      AssignLayout(toks, j, g);
      ScanOver(toks, j, |toks|, cbc);
      ScanOver(toks, j + 1, |toks|, cbc);
      ScanOver(toks, j + 2, |toks|, cbc);
      ScanOver(toks, j + 3, |toks|, cbc);
      ScanPassesFlat(toks, j + 4, g[1..], cbc);
    }
  }

  lemma {:induction false} ParseFlat(toks: seq<string>, i: nat, g: seq<Cfg>, cbc: int)
    requires Flat(g) && At(toks, i, Flatten(g)) && i + |Flatten(g)| == |toks|
    ensures ParseFrom(toks, i, |toks|, cbc) == Tree(g)
    decreases g
  {
    if g == [] {
    } else {
      AssignLayout(toks, i, g);
      ParseFlat(toks, i + 4, g[1..], cbc);
      assert g == [g[0]] + g[1..];
    }
  }

  /** A closing brace in front of an opening one passes the brace count. The block that is then never closed is
      lost, and its statements are read as if they stood outside. */
  lemma MisplacedBraces(toks: seq<string>, n: string, g: seq<Cfg>)
    requires BraceFree(n) && First(n) != '=' && Plain(g) && Flat(g)
    requires g != [] ==> First(FirstName(g)) != '='
    requires toks == ["}", n, "{"] + Flatten(g)
    ensures Balanced(toks) && ParseFrom(toks, 0, |toks|, 0) == Tree(g)
  {
    var head := ["}", n, "{"];
    AtSplit(toks, 0, head, Flatten(g));
    assert toks[1] == head[1] && toks[2] == head[2];
    MisplacedBalanced(n, g);
    MisplacedRead(toks, g);
  }

  lemma MisplacedRead(toks: seq<string>, g: seq<Cfg>)
    requires Plain(g) && Flat(g) && (g != [] ==> First(FirstName(g)) != '=')
    requires |toks| == 3 + |Flatten(g)| && At(toks, 3, Flatten(g))
    requires BraceFree(toks[1]) && First(toks[1]) != '=' && toks[2] == "{"
    ensures ParseFrom(toks, 0, |toks|, 0) == Tree(g)
  {
    var te := |toks|;
    ScanPassesFlat(toks, 3, g, 1);
    if g != [] {
      FirstNameAt(toks, 3, g);
      PlainName(g);
      ParseFlat(toks, 3, g, 1);
      assert ParseFrom(toks, 2, te, 1) == ParseFrom(toks, 3, te, 1);
    }
    assert ParseFrom(toks, 1, te, 0) == ParseFrom(toks, 2, te, 1);
    assert ParseFrom(toks, 0, te, 0) == ParseFrom(toks, 1, te, 0);
  }

  lemma MisplacedBalanced(n: string, g: seq<Cfg>)
    requires BraceFree(n) && Plain(g)
    ensures Balanced(["}", n, "{"] + Flatten(g))
  {
    var head := ["}", n, "{"];
    FlattenBalanced(g);
    OccurrencesCount(head, "{");
    OccurrencesCount(head, "}");
    assert n != "{" && n != "}";
    OccurrencesAppend(head, Flatten(g), "{");
    OccurrencesAppend(head, Flatten(g), "}");
  }

  /* ---- Lines that are too long ---- */

  lemma {:induction false} NoNewline(text: string, n: nat)
    requires n <= |text| && OneLine(text[..n])
    ensures LineLength(text, n) == n
  {
    if n > 0 {
      assert text[0] == text[..n][0] && text[1..][..n - 1] == text[..n][1..];
      NoNewline(text[1..], n - 1);
    }
  }

  lemma WordOfLine(w: string)
    requires BareOK(w)
    ensures LexLine(w, false, false) == Lexed([w], false, false)
  {
    assert BareChar(w[0]);
    LexToken(w, false);
    assert w + "" == w;
    WalkBare(w, "", 0);
    var k := |w| - 1;
    assert BareChar(w[k]) && w[0..k + 1] == w && w[k + 1..] == "";
    assert LexLine("", false, false) == Lexed([], false, false);
  }

  /** A word that does not fit into the line buffer is cut in two. */
  lemma LongWordCut(w: string)
    requires BareOK(w) && 398 < |w| <= 796 && !OpensComment(w[398..])
    ensures LexText(w, false, false) == Lexed([w[..398], w[398..]], false, false)
  {
    var a, b := w[..398], w[398..];
    forall i | 0 <= i < |b| ensures BareChar(b[i]) {
      assert b[i] == w[398 + i];
    }
    assert CharAt(a, 0) == w[0] && CharAt(a, 1) == w[1];
    forall i | 0 <= i < |w| ensures w[i] != '\n' {
      assert BareChar(w[i]);
    }
    NoNewline(w, 398);
    WordOfLine(a);
    NoNewline(b, |b|);
    LineLengthWhole(b, 398);
    assert b[..|b|] == b && b[|b|..] == "";
    WordOfLine(b);
    assert LexText("", false, false) == Lexed([], false, false);
    assert LexText(b, false, false) == Continue([b], LexText("", false, false));
    assert [a] + [b] == [a, b];
  }
}
