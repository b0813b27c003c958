/** The lexer of the rcfg framework (tokenize in rcfg/readconf.c): lines of at most 398 characters,
    comments and quotations that carry over from one iteration to the next. The functions work on
    what is left of a line; a line ends, as in the line buffer, with an implicit NUL. */
module RcfgLexer {
  import opened Common
  import opened RcfgParser

  function CharAt(s: string, i: nat): char
  {
    if i < |s| then s[i] else '\0'
  }

  predicate IsBlank(c: char)
  {
    c == ' ' || c == '\t'
  }

  predicate IsLineEnd(c: char)
  {
    c == '\0' || c == '\r' || c == '\n'
  }

  /** The characters that end a token when they come next. */
  predicate Stops(c: char)
  {
    c == '\0' || c == '#' || c == ';' || c == '=' || c == '{' || c == '}' || c == '\n' || c == '\r' || c == '\t'
  }

  predicate OpensComment(s: string)
  {
    CharAt(s, 0) == '/' && CharAt(s, 1) == '*'
  }

  predicate ClosesComment(s: string)
  {
    CharAt(s, 0) == '*' && CharAt(s, 1) == '/'
  }

  function SkipBlank(s: string): (r: string)
    ensures |r| <= |s| && !IsBlank(CharAt(r, 0))
  {
    if IsBlank(CharAt(s, 0)) then SkipBlank(s[1..]) else s
  }

  /** What is left from the end of the comment, or from the end of the line. */
  function CommentEnd(s: string): (r: string)
    ensures |r| <= |s| && (ClosesComment(r) || CharAt(r, 0) == '\0')
    ensures !ClosesComment(s) && CharAt(s, 0) != '\0' ==> |r| < |s|
  {
    if ClosesComment(s) || CharAt(s, 0) == '\0' then s else CommentEnd(s[1..])
  }

  datatype Walked = Walked(tend: nat, quotation: bool)

  /** The walk to the last character of the token that starts `s`. */
  function Walk(s: string, k: nat, quotation: bool): (r: Walked)
    requires k < |s|
    ensures k <= r.tend < |s|
    decreases |s| - k
  {
    var here, next := s[k], CharAt(s, k + 1);
    if Stops(next) || Stops(here) then Walked(k, quotation)
    else if next == ' ' && !quotation then Walked(k, quotation)
    else Walk(s, k + 1, if here == '"' || next == '"' then !quotation else quotation)
  }

  function Quotes(s: string, k: nat): nat
    requires k < |s|
  {
    (if s[0] == '"' then 1 else 0) + (if s[k] == '"' then 1 else 0)
  }

  /** The characters copied for a token that ends at index `k`, without a quote at either end. */
  function Unquote(s: string, k: nat): string
    requires k < |s| && Quotes(s, k) <= k
  {
    s[if s[0] == '"' then 1 else 0..if s[k] == '"' then k else k + 1]
  }

  datatype Lexed = Bad | Lexed(toks: seq<string>, comment: bool, quotation: bool)

  function Continue(toks: seq<string>, r: Lexed): Lexed
  {
    match r
    case Bad => Bad
    case Lexed(more, c, q) => Lexed(toks + more, c, q)
  }

  /** One line, from any state. */
  function LexLine(s: string, comment: bool, quotation: bool): Lexed
    decreases |s|
  {
    var s := SkipBlank(s);
    if IsLineEnd(CharAt(s, 0)) then Lexed([], comment, quotation)
    else if comment || OpensComment(s) then
      var e := CommentEnd(s);
      if ClosesComment(e) then LexLine(e[2..], false, quotation) else Lexed([], true, quotation)
    else
      var w := Walk(s, 0, quotation);
      if s[w.tend] == '#' || IsLineEnd(s[w.tend]) then Lexed([], false, w.quotation)
      else if w.tend < Quotes(s, w.tend) then Bad
      else Continue([Unquote(s, w.tend)], LexLine(s[w.tend + 1..], false, w.quotation))
  }

  /* ---- Lines ---- */

  /** sizeof(linebuff) - 1, of which fgets keeps one for the NUL. */
  const LINE_MAX: nat := 398

  /** The characters up to and including the first newline, at most `n`. */
  function LineLength(text: string, n: nat): (r: nat)
    ensures r <= |text| && r <= n
    ensures text != "" && n > 0 ==> r > 0
  {
    if text == "" || n == 0 then 0
    else if text[0] == '\n' then 1
    else 1 + LineLength(text[1..], n - 1)
  }

  /** Line after line, as fgets delivers them. */
  function LexText(text: string, comment: bool, quotation: bool): Lexed
    decreases |text|
  {
    if text == "" then Lexed([], comment, quotation)
    else
      var n := LineLength(text, LINE_MAX);
      match LexLine(text[..n], comment, quotation)
      case Bad => Bad
      case Lexed(toks, c, q) => Continue(toks, LexText(text[n..], c, q))
  }

  /** What the token list is checked against: the keywords of rcfg/rcfgkw.h, and in `values` the two
      tables for the values that follow some of them (checkdatatype, checkargs). */
  datatype Tables = Tables(keywords: set<string>, values: seq<string> -> bool)

  /** The token list of a file: none if a token is malformed, a comment is left open, there is no token
      at all or the list is not valid. */
  function Tokens(text: string, tables: Tables): Option<seq<string>>
  {
    match LexText(text, false, false)
    case Bad => None
    case Lexed(toks, comment, _) =>
      if !comment && toks != [] && Balanced(toks) && KeywordsOnly(toks, tables.keywords) && tables.values(toks)
      then Some(toks) else None
  }

  /* ---- The lexer as it runs ---- */

  lemma ContinueTwice(a: seq<string>, b: seq<string>, r: Lexed)
    ensures Continue(a, Continue(b, r)) == Continue(a + b, r)
  {
    if r.Lexed? {
      assert a + (b + r.toks) == (a + b) + r.toks;
    }
  }

  /** The walk from tstart to tend. */
  method FindTokenEnd(line: string, tstart: nat, quotation: bool) returns (tend: nat, q: bool)
    requires tstart < |line|
    ensures tstart <= tend < |line|
    ensures Walked(tend - tstart, q) == Walk(line[tstart..], 0, quotation)
  {
    tend, q := tstart, quotation;
    ghost var s := line[tstart..];
    while !Stops(CharAt(line, tend + 1)) && !Stops(line[tend])
      invariant tstart <= tend < |line|
      invariant Walk(s, tend - tstart, q) == Walk(s, 0, quotation)
      decreases |line| - tend
    {
      assert s[tend - tstart] == line[tend] && CharAt(s, tend - tstart + 1) == CharAt(line, tend + 1);
      if CharAt(line, tend + 1) == ' ' && !q {
        return;
      }
      if line[tend] == '"' || CharAt(line, tend + 1) == '"' {
        q := !q;
      }
      tend := tend + 1;
    }
    assert s[tend - tstart] == line[tend] && CharAt(s, tend - tstart + 1) == CharAt(line, tend + 1);
  }

  lemma DropDrop(s: string, i: nat, j: nat)
    requires i + j <= |s|
    ensures s[i..][j..] == s[i + j..]
  {
  }

  /** The leading white space from `p`. */
  method SkipBlanks(line: string, p: nat) returns (p': nat)
    requires p <= |line|
    ensures p <= p' <= |line| && line[p'..] == SkipBlank(line[p..])
  {
    p' := p;
    while p' < |line| && (line[p'] == ' ' || line[p'] == '\t')
      invariant p <= p' <= |line| && SkipBlank(line[p'..]) == SkipBlank(line[p..])
    {
      DropDrop(line, p', 1);
      p' := p' + 1;
    }
  }

  /** The move to the end of a comment, or to the end of the line. */
  method SkipComment(line: string, p: nat) returns (p': nat)
    requires p <= |line|
    ensures p <= p' <= |line| && line[p'..] == CommentEnd(line[p..])
  {
    p' := p;
    while !(CharAt(line, p') == '*' && CharAt(line, p' + 1) == '/') && CharAt(line, p') != '\0'
      invariant p <= p' <= |line| && CommentEnd(line[p'..]) == CommentEnd(line[p..])
      decreases |line| - p'
    {
      DropDrop(line, p', 1);
      p' := p' + 1;
    }
  }

  /** Copies the token from `p` to `tend` without quotes around it; a negative length is an error. */
  method CopyToken(line: string, p: nat, tend: nat) returns (t: Option<string>)
    requires p <= tend < |line|
    ensures var s, k := line[p..], tend - p;
            t == if k < Quotes(s, k) then None else Some(Unquote(s, k))
  {
    var tstart, tlen := p, tend - p;
    if line[tstart] == '"' {
      tstart, tlen := tstart + 1, tlen - 1;
    }
    if line[tend] == '"' {
      tlen := tlen - 1;
    }
    if tlen < 0 {
      return None;
    }
    t := Some(line[tstart..tstart + tlen + 1]);
    assert t.value == Unquote(line[p..], tend - p);
  }

  /** LexLine from a token start. */
  lemma LexToken(s: string, quotation: bool)
    requires !IsBlank(CharAt(s, 0)) && !IsLineEnd(CharAt(s, 0)) && !OpensComment(s)
    ensures var w := Walk(s, 0, quotation);
            LexLine(s, false, quotation)
            == if s[w.tend] == '#' || IsLineEnd(s[w.tend]) then Lexed([], false, w.quotation)
               else if w.tend < Quotes(s, w.tend) then Bad
               else Continue([Unquote(s, w.tend)], LexLine(s[w.tend + 1..], false, w.quotation))
  {
    assert SkipBlank(s) == s;
  }

  /** LexLine inside a comment, or at the start of one. */
  lemma LexComment(s: string, comment: bool, quotation: bool)
    requires !IsBlank(CharAt(s, 0)) && !IsLineEnd(CharAt(s, 0)) && (comment || OpensComment(s))
    ensures var e := CommentEnd(s);
            LexLine(s, comment, quotation)
            == if ClosesComment(e) then LexLine(e[2..], false, quotation) else LexLine(e, true, quotation)
  {
    assert SkipBlank(s) == s;
    var e := CommentEnd(s);
    assert !ClosesComment(e) ==> SkipBlank(e) == e;
  }

  lemma LexBlanks(s: string, comment: bool, quotation: bool)
    ensures LexLine(s, comment, quotation) == LexLine(SkipBlank(s), comment, quotation)
  {
    assert SkipBlank(SkipBlank(s)) == SkipBlank(s);
  }

  /** Inside a comment, or at the start of one: on to its end or the end of the line. */
  method TakeComment(line: string, p: nat, c: bool, q: bool) returns (next: nat, c': bool)
    requires p < |line| && !IsBlank(line[p]) && !IsLineEnd(line[p]) && (c || OpensComment(line[p..]))
    ensures p < next <= |line|
    ensures LexLine(line[p..], c, q) == LexLine(line[next..], c', q)
  {
    ghost var s := line[p..];
    assert CharAt(s, 0) == line[p];
    LexComment(s, c, q);
    c' := true;
    next := SkipComment(line, p);
    ghost var e := line[next..];
    assert e == CommentEnd(s);
    assert !ClosesComment(s) ==> |e| < |s|;
    assert CharAt(e, 0) == CharAt(line, next) && CharAt(e, 1) == CharAt(line, next + 1);
    if CharAt(line, next) == '*' && CharAt(line, next + 1) == '/' {
      assert ClosesComment(e);
      c' := false;
      DropDrop(line, next, 2);
      next := next + 2;
    } else {
      assert !ClosesComment(e);
    }
  }

  /** The token that starts at `p`. `done` says that the rest of the line is not looked at. */
  method TakeToken(line: string, p: nat, q: bool) returns (t: Option<string>, done: bool, next: nat, q': bool)
    requires p < |line| && !IsBlank(line[p]) && !IsLineEnd(line[p]) && !OpensComment(line[p..])
    ensures p < next <= |line|
    ensures LexLine(line[p..], false, q)
         == if done then Lexed([], false, q') else if t.None? then Bad
            else Continue([t.value], LexLine(line[next..], false, q'))
  {
    ghost var s := line[p..];
    LexToken(s, q);
    var tend;
    tend, q' := FindTokenEnd(line, p, q);
    assert s[tend - p] == line[tend];
    t, done, next := None, line[tend] == '#' || IsLineEnd(line[tend]), tend + 1;
    if !done {
      t := CopyToken(line, p, tend);
      DropDrop(line, p, tend - p + 1);
    }
  }

  /** The body of the loop over the lines, from `start:` until the line is used up. */
  method TokenizeLine(line: string, comment: bool, quotation: bool) returns (r: Lexed)
    ensures r == LexLine(line, comment, quotation)
  {
    var p, c, q := 0, comment, quotation;
    var toks: seq<string> := [];
    while true
      invariant p <= |line|
      invariant Continue(toks, LexLine(line[p..], c, q)) == LexLine(line, comment, quotation)
      decreases |line| - p
    {
      LexBlanks(line[p..], c, q);
      p := SkipBlanks(line, p);
      ghost var s := line[p..];
      assert CharAt(s, 0) == CharAt(line, p) && CharAt(s, 1) == CharAt(line, p + 1);
      if IsLineEnd(CharAt(line, p)) {
        return Lexed(toks, c, q);
      }
      if c || (CharAt(line, p) == '/' && CharAt(line, p + 1) == '*') {
        p, c := TakeComment(line, p, c, q);
      } else {
        var t, done, next, q' := TakeToken(line, p, q);
        if done {
          return Lexed(toks, false, q');
        }
        if t.None? {
          return Bad;
        }
        ContinueTwice(toks, [t.value], LexLine(line[next..], false, q'));
        toks, p, q := toks + [t.value], next, q';
      }
    }
  }

  /** fgets: at most 398 characters, up to and including a newline. */
  method Fgets(text: string, p: nat) returns (n: nat)
    requires p <= |text|
    ensures n == LineLength(text[p..], LINE_MAX)
  {
    n := 0;
    while n < LINE_MAX && p + n < |text|
      invariant p + n <= |text| && n <= LINE_MAX
      invariant LineLength(text[p..], LINE_MAX) == n + LineLength(text[p + n..], LINE_MAX - n)
    {
      DropDrop(text, p + n, 1);
      n := n + 1;
      if text[p + n - 1] == '\n' {
        return;
      }
    }
  }

  /** tokenize */
  method Tokenize(text: string, tables: Tables) returns (r: Option<seq<string>>)
    ensures r == Tokens(text, tables)
  {
    var p, comment, quotation := 0, false, false;
    var toks: seq<string> := [];
    while p < |text|
      invariant p <= |text|
      invariant Continue(toks, LexText(text[p..], comment, quotation)) == LexText(text, false, false)
      decreases |text| - p
    {
      var n := Fgets(text, p);
      assert text[p..][..n] == text[p..p + n];
      var line := TokenizeLine(text[p..p + n], comment, quotation);
      if line.Bad? {
        return None;
      }
      DropDrop(text, p, n);
      ContinueTwice(toks, line.toks, LexText(text[p + n..], line.comment, line.quotation));
      toks, comment, quotation := toks + line.toks, line.comment, line.quotation;
      p := p + n;
    }
    assert text[p..] == "" && toks + [] == toks;
    if comment || toks == [] {
      return None;
    }
    var braces := CountBraces(toks);
    if braces != 0 {
      return None;
    }
    var words := CheckTokenList(toks, tables.keywords);
    if words != 0 || !tables.values(toks) {
      return None;
    }
    return Some(toks);
  }

  /** What readconfig makes of a file: the tree, below a root block that carries the file name. */
  function Config(filename: string, text: string, tables: Tables): Option<Parsed>
  {
    match Tokens(text, tables)
    case None => None
    case Some(toks) =>
      match ParseFrom(toks, 0, |toks|, 0)
      case Undefined => Some(Undefined)
      case Tree(f) => Some(Tree([Block(filename, f)]))
  }

  /** readconfig, with processtokens */
  method ReadConfig(filename: string, text: string, tables: Tables) returns (r: Option<Parsed>)
    ensures r == Config(filename, text, tables)
  {
    var toks := Tokenize(text, tables);
    if toks.None? {
      return None;
    }
    var tree := RecursiveParse(toks.value, 0, |toks.value|);
    if tree.Undefined? {
      return Some(Undefined);
    }
    return Some(Tree([Block(filename, tree.forest)]));
  }
}
